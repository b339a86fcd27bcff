/**
 * The notes list screen (app/index.tsx): what it renders from the notes
 * hook's state, the preview of each note's description, and its handlers
 * for logout, edit and delete.
 *
 * The hook itself (`useNotes`) is not part of this model: its `notes`,
 * `isLoading` and `error` are inputs, and its `deleteNote` is an effect.
 */
module NotesList {
  import opened Js
  import opened Storage
  import opened Api
  import opened Ui

  const PreviewLength := 200
  const LogoutFailedMessage := "No se pudo cerrar sesión."

  // ---------------------------------------------------------------------------
  // Preview: `descripcion.replace(/<[^>]*>/g, '').substring(0, 200)`

  /**
   * `s.replace(/<[^>]*>/g, '')`: scanning left to right, a `<` with a `>`
   * somewhere after it starts a match that runs to the first such `>`, and
   * the match is removed; every other character is kept.
   */
  function StripTags(s: string): (r: string)
    ensures |r| <= |s|
    ensures forall k :: 0 <= k < |r| ==> r[k] in s
    decreases |s|
  {
    if s == [] then []
    else if s[0] == '<' && '>' in s[1..] then
      var close := 1 + IndexOf(s[1..], '>');
      var rest := StripTags(s[close + 1..]);
      assert forall k :: 0 <= k < |rest| ==> rest[k] in s[close + 1..];
      rest
    else
      var rest := StripTags(s[1..]);
      assert forall k :: 0 <= k < |rest| ==> rest[k] in s[1..];
      [s[0]] + rest
  }

  /** No `<` is followed, anywhere later, by a `>`: nothing is left that the pattern could match. */
  predicate TagFree(s: string) {
    forall i, j :: 0 <= i < j < |s| && s[i] == '<' ==> s[j] != '>'
  }

  /** Stripping changes nothing in a description without `<`. */
  lemma {:induction false} StripTagsWithoutOpening(s: string)
    requires '<' !in s
    ensures StripTags(s) == s
    decreases |s|
  {
    if s != [] {
      assert '<' !in s[1..];
      StripTagsWithoutOpening(s[1..]);
      assert s == [s[0]] + s[1..];
    }
  }

  /** After stripping, no `<` has a `>` after it. */
  lemma {:induction false} StripTagsLeavesTagFree(s: string)
    ensures TagFree(StripTags(s))
    decreases |s|
  {
    if s != [] {
      if s[0] == '<' && '>' in s[1..] {
        var close := 1 + IndexOf(s[1..], '>');
        StripTagsLeavesTagFree(s[close + 1..]);
      } else {
        StripTagsLeavesTagFree(s[1..]);
        var rest := StripTags(s[1..]);
        var r := StripTags(s);
        assert r == [s[0]] + rest;
        if s[0] == '<' {
          assert forall k :: 0 <= k < |rest| ==> rest[k] != '>';
        }
        forall i, j | 0 <= i < j < |r| && r[i] == '<' ensures r[j] != '>' {
          if i > 0 {
            assert r[i] == rest[i - 1] && r[j] == rest[j - 1];
          } else {
            assert r[j] == rest[j - 1];
          }
        }
      }
    }
  }

  /** Stripping changes nothing in a tag-free string. */
  lemma {:induction false} StripTagsKeepsTagFree(s: string)
    requires TagFree(s)
    ensures StripTags(s) == s
    decreases |s|
  {
    if s != [] {
      if s[0] == '<' {
        assert forall j :: 1 <= j < |s| ==> s[j] != '>';
        assert '>' !in s[1..];
      }
      assert TagFree(s[1..]) by {
        forall i, j | 0 <= i < j < |s[1..]| && s[1..][i] == '<' ensures s[1..][j] != '>' {
          assert s[i + 1] == '<';
        }
      }
      StripTagsKeepsTagFree(s[1..]);
      assert s == [s[0]] + s[1..];
    }
  }

  /** Stripping twice is stripping once. */
  lemma StripTagsIdempotent(s: string)
    ensures StripTags(StripTags(s)) == StripTags(s)
  {
    StripTagsLeavesTagFree(s);
    StripTagsKeepsTagFree(StripTags(s));
  }

  /** Every prefix of a stripped text is tag-free, so cutting it short leaves nothing to match. */
  lemma StrippedPrefixesTagFree(s: string)
    ensures forall n :: 0 <= n <= |StripTags(s)| ==> TagFree(StripTags(s)[..n])
  {
    StripTagsLeavesTagFree(s);
  }

  /** The text shown for a note: its description without tags, cut to 200 characters. */
  function Preview(descripcion: string): (p: string)
    ensures |p| <= PreviewLength
    ensures p == StripTags(descripcion)[..Min(|StripTags(descripcion)|, PreviewLength)]
    ensures TagFree(p)
    ensures '<' !in descripcion ==> p == descripcion[..Min(|descripcion|, PreviewLength)]
  {
    StrippedPrefixesTagFree(descripcion);
    if '<' !in descripcion then
      StripTagsWithoutOpening(descripcion);
      Substring(StripTags(descripcion), 0, PreviewLength)
    else
      Substring(StripTags(descripcion), 0, PreviewLength)
  }

  // ---------------------------------------------------------------------------
  // Handlers

  const EditPathPrefix := "/create-note?id="

  /** `handleEditNote(noteId)`: push `/create-note?id=${noteId}`. */
  function EditNote(noteId: int): (effects: seq<Effect>)
    ensures |effects| == 1 && effects[0].Push? && |effects[0].path| > |EditPathPrefix|
    ensures effects[0].path[..|EditPathPrefix|] == EditPathPrefix
    ensures ParseInteger(effects[0].path[|EditPathPrefix|..]) == Some(noteId)
  {
    var path := EditPathPrefix + NumberToString(noteId);
    assert path[|EditPathPrefix|..] == NumberToString(noteId);
    NumberToStringRoundTrip(noteId);
    [Push(path)]
  }

  /** Different notes open different edit routes. */
  lemma EditRoutesDistinct(a: int, b: int)
    ensures EditNote(a) == EditNote(b) <==> a == b
  {
    if EditNote(a) == EditNote(b) {
      assert ParseInteger(EditNote(a)[0].path[|EditPathPrefix|..]) == Some(a);
    }
  }

  const DeleteTitle := "Eliminar Nota"
  const DeleteQuestion := "¿Estás seguro de que quieres eliminar esta nota?"

  /**
   * `handleDeleteNote(noteId)`: only a confirmation alert. Its Cancel button
   * does nothing; its Delete button calls the hook's `deleteNote(noteId)`.
   */
  function DeleteNotePrompt(noteId: int): (effects: seq<Effect>)
    ensures |effects| == 1 && effects[0].Alert?
    ensures effects[0].title == DeleteTitle && effects[0].message == DeleteQuestion
    ensures |effects[0].buttons| == 2
    ensures effects[0].buttons[0] == Button("Cancelar", Cancel, Dismiss)
    ensures effects[0].buttons[1].text == "Eliminar" && effects[0].buttons[1].style == Destructive
    ensures forall b, fails :: 0 <= b < 2 ==>
              (CallDeleteNote(noteId) in Press(effects[0].buttons[b], fails) <==> effects[0].buttons[b].text == "Eliminar")
  {
    var effects := [Alert(DeleteTitle, DeleteQuestion,
                          [Button("Cancelar", Cancel, Dismiss), Button("Eliminar", Destructive, DeleteNote(noteId))])];
    assert forall fails :: Press(effects[0].buttons[1], fails)[0] == CallDeleteNote(noteId);
    effects
  }

  /** What one press of the logout button leaves behind. */
  datatype LogoutRun = LogoutRun(effects: seq<Effect>, entries: map<string, string>)

  /**
   * `handleLogout`: remove the token, then replace the screen with `/login`;
   * if the removal rejects, alert and stay.
   */
  function LogoutFlow(removeFails: bool, entries: map<string, string>): (r: LogoutRun)
    ensures !removeFails ==> Storage.Get(r.entries, TokenKey) == None
    ensures !removeFails ==> r.entries == entries - {TokenKey} && r.effects == [Replace(LoginPath)]
    ensures removeFails ==> r.entries == entries && r.effects == [PlainAlert("Error", LogoutFailedMessage)]
    ensures NoNavigation(r.effects) <==> removeFails
  {
    if removeFails then
      LogoutRun([PlainAlert("Error", LogoutFailedMessage)], entries)
    else
      var r := LogoutRun([Replace(LoginPath)], entries - {TokenKey});
      assert Navigates(r.effects[0]);
      r
  }

  /** `handleLogout`, run against the store: the removal comes first, the navigation after it. */
  method HandleLogout(store: KeyValueStore, removeFails: bool) returns (effects: seq<Effect>)
    modifies store
    ensures effects == LogoutFlow(removeFails, old(store.entries)).effects
    ensures store.entries == LogoutFlow(removeFails, old(store.entries)).entries
  {
    var ok := store.RemoveItem(TokenKey, removeFails);
    if ok {
      effects := [Replace(LoginPath)];
    } else {
      effects := [PlainAlert("Error", LogoutFailedMessage)];
    }
  }

  // ---------------------------------------------------------------------------
  // Rendering

  /** One note as a card: key, title, preview, and what its two icon buttons do. */
  datatype Card = Card(key: int, title: string, preview: string, onEdit: seq<Effect>, onDelete: seq<Effect>)

  /** What the scroll view of the full screen holds. */
  datatype Listing = LoadingText | EmptyText | Cards(cards: seq<Card>)

  datatype View = Spinner | ErrorView(message: string) | Page(listing: Listing)

  /**
   * The card of one note: keyed by its id, titled with its title, showing
   * its preview; the pencil opens the note's own edit route, and the trash
   * icon only asks for confirmation.
   */
  function CardOf(note: Tarea): (c: Card)
    ensures c.key == note.id && c.title == note.titulo
    ensures |c.preview| <= PreviewLength
    ensures c.preview == StripTags(note.descripcion)[..Min(|StripTags(note.descripcion)|, PreviewLength)]
    ensures |c.onEdit| == 1 && c.onEdit[0].Push? && |c.onEdit[0].path| > |EditPathPrefix|
    ensures ParseInteger(c.onEdit[0].path[|EditPathPrefix|..]) == Some(note.id)
    ensures |c.onDelete| == 1 && c.onDelete[0].Alert? && NoNavigation(c.onDelete) && NoFetch(c.onDelete)
    // Both buttons act on this note: its own edit route, its own confirmation.
    ensures c.onEdit == EditNote(note.id) && c.onDelete == DeleteNotePrompt(note.id)
  {
    Card(note.id, note.titulo, Preview(note.descripcion), EditNote(note.id), DeleteNotePrompt(note.id))
  }

  /**
   * The render priority: the spinner while loading, whatever the error and
   * the notes; then a non-empty error; then the empty message; then one card
   * per note, in order. The "Cargando notas..." branch inside the full screen
   * is never reached, because loading has returned the spinner already.
   */
  function Render(isLoading: bool, error: Option<string>, notes: seq<Tarea>): (v: View)
    ensures isLoading ==> v == Spinner
    ensures !isLoading && TruthyString(error) ==> v == ErrorView(error.value)
    ensures !isLoading && !TruthyString(error) && notes == [] ==> v == Page(EmptyText)
    ensures !isLoading && !TruthyString(error) && notes != [] ==>
              && v.Page? && v.listing.Cards? && |v.listing.cards| == |notes|
              && forall k :: 0 <= k < |notes| ==> v.listing.cards[k] == CardOf(notes[k])
    ensures v != Page(LoadingText)
  {
    if isLoading then Spinner
    else if TruthyString(error) then ErrorView(error.value)
    else Page(if isLoading then LoadingText
              else if |notes| == 0 then EmptyText
              else Cards(seq(|notes|, k requires 0 <= k < |notes| => CardOf(notes[k]))))
  }
}
