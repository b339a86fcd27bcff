/**
 * What the screens do to the outside world, as data: alerts (with their
 * buttons), navigation through the router, and calls to the API client.
 * `Alert.alert`, `router` and `requestAnimationFrame` are not modelled
 * beyond the effect they request.
 */
module Ui {
  import opened Js
  import Api

  /** The login screen's route, the target of every redirect to sign in. */
  const LoginPath := "/login"

  datatype ButtonStyle = Default | Cancel | Destructive

  /** What pressing an alert button does. */
  datatype Action =
    | Dismiss                    // a button without `onPress`
    | ReplaceNextFrame(path: string)  // `requestAnimationFrame(() => router.replace(path))`
    | DeleteNote(noteId: int)    // the `deleteNote(noteId)` confirmation of the notes list

  datatype Button = Button(text: string, style: ButtonStyle, onPress: Action)

  datatype Effect =
    | Alert(title: string, message: string, buttons: seq<Button>)  // `Alert.alert(title, message, buttons)`
    | Replace(path: string)                                         // `router.replace(path)`
    | Push(path: string)                                            // `router.push(path)`
    | Fetch(request: Api.Request)                                   // a call into the API client went out
    | CallDeleteNote(noteId: int)                                   // the notes hook's `deleteNote(noteId)`

  /** `Alert.alert(title, message)` with the platform's default button. */
  function PlainAlert(title: string, message: string): Effect {
    Alert(title, message, [])
  }

  predicate Navigates(e: Effect) {
    e.Replace? || e.Push?
  }

  predicate NoNavigation(effects: seq<Effect>) {
    forall k :: 0 <= k < |effects| ==> !Navigates(effects[k])
  }

  predicate NoFetch(effects: seq<Effect>) {
    forall k :: 0 <= k < |effects| ==> !effects[k].Fetch?
  }

  const DeleteFailedMessage := "No se pudo eliminar la nota"

  /**
   * The effects of pressing a button. For the delete confirmation, whether
   * the hook's `deleteNote` rejects is given: a rejection is reported with
   * an alert.
   */
  function Press(b: Button, deleteFails: bool): (effects: seq<Effect>)
    ensures b.onPress.Dismiss? ==> effects == []
    ensures b.onPress.ReplaceNextFrame? ==> effects == [Replace(b.onPress.path)]
    ensures b.onPress.DeleteNote? ==>
              effects == [CallDeleteNote(b.onPress.noteId)] +
                         (if deleteFails then [PlainAlert("Error", DeleteFailedMessage)] else [])
    ensures (exists k :: 0 <= k < |effects| && effects[k].CallDeleteNote?) <==> b.onPress.DeleteNote?
  {
    match b.onPress
    case Dismiss => []
    case ReplaceNextFrame(path) => [Replace(path)]
    case DeleteNote(noteId) =>
      var effects := [CallDeleteNote(noteId)] + if deleteFails then [PlainAlert("Error", DeleteFailedMessage)] else [];
      assert effects[0].CallDeleteNote?;
      effects
  }
}
