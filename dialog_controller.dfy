/**
 * The base dialog controller every dialog of the app is built from: a
 * visibility flag and one confirm callback. A callback is a name; the
 * callbacks that ran are logged in order, so that "runs once" can be said.
 */
module DialogController {
  import opened Wrappers

  datatype Callback = Callback(name: string)

  const NO_CALLBACK: string := "Must implement onConfirmCallback"

  /** `toggle(visible?)`: no argument flips the flag, an argument sets it. */
  function Toggled(current: bool, visible: Option<bool>): (r: bool)
    ensures visible.None? ==> r == !current
    ensures visible.Some? ==> r == visible.value
  {
    if visible.None? then !current else visible.value
  }

  /** Toggling twice without an argument restores the flag; setting twice
      is setting once. */
  lemma ToggleTwice(current: bool, visible: Option<bool>)
    ensures Toggled(Toggled(current, None), None) == current
    ensures Toggled(Toggled(current, visible), visible) == (if visible.None? then current else visible.value)
  {
  }

  class Dialog {
    var visible: bool
    var onConfirmCallback: Option<Callback>
    /** the callbacks that ran, oldest first */
    var ran: seq<Callback>

    constructor()
      ensures !visible && onConfirmCallback.None? && ran == []
    {
      visible := false;
      onConfirmCallback := None;
      ran := [];
    }

    method Show()
      modifies this`visible
      ensures visible
    {
      visible := true;
    }

    method Close()
      modifies this`visible
      ensures !visible
    {
      visible := false;
    }

    method Toggle(isVisible: Option<bool>)
      modifies this`visible
      ensures visible == Toggled(old(visible), isVisible)
    {
      if isVisible.None? {
        visible := !visible;
      } else {
        visible := isVisible.value;
      }
    }

    /** `onConfirm(callback)`: replaces any earlier callback. */
    method OnConfirm(callback: Callback)
      modifies this`onConfirmCallback
      ensures onConfirmCallback == Some(callback)
    {
      onConfirmCallback := Some(callback);
    }

    /** `confirm()`: fails without a callback and changes nothing; otherwise
      closes the dialog and runs the callback once. */
    method Confirm() returns (r: Result<()>)
      modifies this`visible, this`ran
      ensures onConfirmCallback.None? ==> (
        r == Err(NO_CALLBACK) && visible == old(visible) && ran == old(ran))
      ensures onConfirmCallback.Some? ==> (
        r.Ok? && !visible && ran == old(ran) + [onConfirmCallback.value])
    {
      if onConfirmCallback.None? {
        return Err(NO_CALLBACK);
      }
      Close();
      ran := ran + [onConfirmCallback.value];
      r := Ok(());
    }
  }
}
