/**
  The events the input components (touch panel, buttons, switches) report:
  `UserInput::EventType` and `UserInput::Event`. The switch events and the
  `final` flag belong to the button-UI generation of the firmware.
 */
module UserInput {

  datatype EventType =
    | None | TouchStart | TouchEnd | Tap
    | SwipeUp | SwipeDown | SwipeLeft | SwipeRight
    | ClickSingle | ClickDouble | ClickTriple | ClickQuad
    | HoldLong2s | ClickLong2s | HoldLong5s | ClickLong5s
    | HoldLong10s | ClickLong10s | HoldLong20s | ClickLong20s
    | SwitchOn | SwitchOff

  /** One event: its type, the touch point, the button it concerns, and whether the press is over. */
  datatype Event = Event(kind: EventType, x: nat, y: nat, btnId: nat, final: bool)
}
