/**
 * The slice of winit's event vocabulary the waveshaper reacts to. Events the program
 * ignores are folded into `OtherWindowEvent` / `OtherEvent`.
 */
module Events {

  datatype MouseButton = Left | Right | Middle | OtherButton(code: nat)

  datatype ElementState = Pressed | Released

  datatype WindowEvent =
    | MouseInput(button: MouseButton, state: ElementState)
    | CursorMoved(x: real, y: real)
    | Resized(width: nat, height: nat)
    | ScaleFactorChanged(newWidth: nat, newHeight: nat)
    | OtherWindowEvent

  datatype Event =
    | Window(event: WindowEvent)
    | RedrawRequested
    | OtherEvent

  /** A press of the left mouse button, the one gesture that edits the wave. */
  predicate IsLeftPress(ev: Event)
  {
    ev == Window(MouseInput(Left, Pressed))
  }
}
