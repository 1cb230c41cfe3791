/**
 * The gothram page's form: `handleSubmit` trims the two names, refuses
 * blank or over-long ones with a message, sends the rest to
 * `POST /api/gothram` (or `PUT /api/gothram/{id}` while editing), and then
 * refreshes the list through `fetchGothrams` or shows the error.
 */
module GothramPage {
  import opened Options
  import opened JsString
  import opened JsValue
  import opened Db
  import opened Http
  import opened Translation
  import GothramRoute

  datatype Verb = Put | Post

  /** The `fetch` call `handleSubmit` makes: method, URL and the JSON body
      `{ nameEn, nameMl }`. */
  datatype FetchRequest = FetchRequest(verb: Verb, url: string, nameEn: string, nameMl: string)

  /** What `fetch` and `response.json()` give back for the save: the
      `ok` flag and the body's `error` field, or the message of an error
      either of them threw. */
  datatype SaveReply = Saved(ok: bool, error: Option<string>) | SaveThrew(message: string)

  /** What `fetchGothrams` gets back from `GET /api/gothram`. */
  datatype ListReply = Listed(rows: seq<Lookup>) | ListRefused(error: Option<string>) | ListThrew(message: string)

  /** The page's state that `handleSubmit` and `fetchGothrams` change. */
  datatype FormState = FormState(
    gothrams: seq<Lookup>, isLoading: bool, error: string,
    isEditing: bool, editingGothram: Option<Lookup>)

  const ListUrl := "/api/gothram"

  /** The JSON body `JSON.stringify(data)` sends. */
  function BodyOf(req: FetchRequest): map<string, Value> {
    map["nameEn" := Str(req.nameEn), "nameMl" := Str(req.nameMl)]
  }

  /** The labels of the blank names, English first. */
  function MissingLabels(nameEn: string, nameMl: string): seq<string> {
    (if nameEn == "" then ["English name"] else []) + (if nameMl == "" then ["Malayalam name"] else [])
  }

  /** The message for blank names. */
  function MissingPrompt(nameEn: string, nameMl: string): string {
    "Please enter " + Join(MissingLabels(nameEn, nameMl), " and ")
  }

  /** The checks before the request: the request to send, or the message
      the form shows instead. */
  function Validate(rawEn: string, rawMl: string, editing: Option<Lookup>): Result<FetchRequest, string> {
    var nameEn := Trim(rawEn);
    var nameMl := Trim(rawMl);
    if nameEn == "" || nameMl == "" then
      Err(MissingPrompt(nameEn, nameMl))
    else if Utf16Length(nameEn) > MaxNameLength || Utf16Length(nameMl) > MaxNameLength then
      Err(LengthMessage)
    else if editing.Some? then
      Ok(FetchRequest(Put, ListUrl + "/" + IntToString(editing.value.id), nameEn, nameMl))
    else
      Ok(FetchRequest(Post, ListUrl, nameEn, nameMl))
  }

  /** `String(x)` of what `t` returns, as `new Error(x)` turns it into a
      message. */
  function TextOf(n: Node): string {
    if n.Text? then n.s else "[object Object]"
  }

  /** `a || b` for a message from a response body. */
  function OrMessage(error: Option<string>, fallback: string): string {
    if error.Some? && error.value != "" then error.value else fallback
  }

  /** The message `handleSubmit` shows for a failed save, or `None` when
      the save succeeded. */
  function SaveError(editing: bool, reply: SaveReply, tr: Node): Option<string> {
    match reply
    case SaveThrew(message) => Some(message)
    case Saved(ok, error) =>
      if ok then None
      else Some(OrMessage(error, TextOf(Translate(tr, if editing then "gothram.error.update" else "gothram.error.create"))))
  }

  /** The state after `fetchGothrams`. */
  function Refreshed(s: FormState, reply: ListReply, tr: Node): FormState {
    match reply
    case Listed(rows) => s.(gothrams := rows, error := "", isLoading := false)
    case ListRefused(error) =>
      s.(error := OrMessage(error, TextOf(Translate(tr, "gothram.error.fetch"))), isLoading := false)
    case ListThrew(message) => s.(error := message, isLoading := false)
  }

  /** `handleSubmit` from state `s`: the request sent, if any, and the new
      state, given the save's reply and the refresh's reply. */
  function Submit(s: FormState, rawEn: string, rawMl: string, reply: SaveReply, refresh: ListReply, tr: Node): (Option<FetchRequest>, FormState) {
    var cleared := s.(error := "");
    match Validate(rawEn, rawMl, s.editingGothram)
    case Err(message) => (None, cleared.(error := message))
    case Ok(req) =>
      match SaveError(s.editingGothram.Some?, reply, tr)
      case Some(message) => (Some(req), cleared.(error := message))
      case None => (Some(req), Refreshed(cleared, refresh, tr).(isEditing := false, editingGothram := None))
  }

  /** The page's state. */
  class GothramForm {
    var gothrams: seq<Lookup>
    var isLoading: bool
    var error: string
    var isEditing: bool
    var editingGothram: Option<Lookup>

    function Contents(): FormState
      reads this
    {
      FormState(gothrams, isLoading, error, isEditing, editingGothram)
    }

    /** The first render: nothing listed, loading, no error, not editing. */
    constructor()
      ensures Contents() == FormState([], true, "", false, None)
    {
      gothrams := [];
      isLoading := true;
      error := "";
      isEditing := false;
      editingGothram := None;
    }

    /** `fetchGothrams` */
    method FetchGothrams(reply: ListReply, tr: Node)
      modifies this
      ensures Contents() == Refreshed(old(Contents()), reply, tr)
    {
      match reply {
        case Listed(rows) =>
          gothrams := rows;
          error := "";
        case ListRefused(e) =>
          error := OrMessage(e, TextOf(Translate(tr, "gothram.error.fetch")));
        case ListThrew(message) =>
          error := message;
      }
      isLoading := false;
    }

    /** `handleSubmit` */
    method HandleSubmit(rawEn: string, rawMl: string, reply: SaveReply, refresh: ListReply, tr: Node)
      returns (sent: Option<FetchRequest>)
      modifies this
      ensures (sent, Contents()) == Submit(old(Contents()), rawEn, rawMl, reply, refresh, tr)
    {
      error := "";
      var req := Validate(rawEn, rawMl, editingGothram);
      if req.Err? {
        error := req.error;
        return None;
      }
      sent := Some(req.value);
      var failed := SaveError(editingGothram.Some?, reply, tr);
      if failed.Some? {
        error := failed.value;
        return;
      }
      FetchGothrams(refresh, tr);
      isEditing := false;
      editingGothram := None;
    }
  }

  /** The message names the blank names, English first, joined by
      "and". */
  lemma MissingPromptNamesBlank(nameEn: string, nameMl: string)
    ensures nameEn == "" && nameMl == "" ==>
      MissingPrompt(nameEn, nameMl) == "Please enter " + "English name" + " and " + "Malayalam name"
    ensures nameEn == "" && nameMl != "" ==> MissingPrompt(nameEn, nameMl) == "Please enter English name"
    ensures nameEn != "" && nameMl == "" ==> MissingPrompt(nameEn, nameMl) == "Please enter Malayalam name"
  {
    if nameEn == "" && nameMl == "" {
      assert MissingLabels(nameEn, nameMl) == ["English name", "Malayalam name"];
      assert Join(["English name", "Malayalam name"], " and ") == "English name" + " and " + "Malayalam name";
    } else if nameEn == "" {
      assert MissingLabels(nameEn, nameMl) == ["English name"];
    } else if nameMl == "" {
      assert MissingLabels(nameEn, nameMl) == ["Malayalam name"];
    }
  }

  /** The form refuses exactly the names that are blank after trimming or
      longer than 200 UTF-16 code units after trimming; blank names are reported
      before length. */
  lemma ValidateRefuses(rawEn: string, rawMl: string, editing: Option<Lookup>)
    ensures Validate(rawEn, rawMl, editing).Err? <==>
      Blank(rawEn) || Blank(rawMl) || Utf16Length(Trim(rawEn)) > MaxNameLength || Utf16Length(Trim(rawMl)) > MaxNameLength
    ensures Blank(rawEn) || Blank(rawMl) ==>
      Validate(rawEn, rawMl, editing) == Err(MissingPrompt(Trim(rawEn), Trim(rawMl)))
    ensures !Blank(rawEn) && !Blank(rawMl) && Validate(rawEn, rawMl, editing).Err? ==>
      Validate(rawEn, rawMl, editing) == Err(LengthMessage)
  {
    TrimRemovesOnlyOuterWhiteSpace(rawEn);
    TrimRemovesOnlyOuterWhiteSpace(rawMl);
  }

  /** A request the form sends carries the trimmed names, non-empty and
      at most 200 UTF-16 code units long, to the collection while creating and to
      the edited row's own URL while editing, whose id segment reads back
      as that row's id. */
  lemma SentRequestShape(rawEn: string, rawMl: string, editing: Option<Lookup>)
    requires Validate(rawEn, rawMl, editing).Ok?
    ensures var req := Validate(rawEn, rawMl, editing).value;
      && req.nameEn == Trim(rawEn) && req.nameMl == Trim(rawMl)
      && req.nameEn != "" && req.nameMl != "" && Trimmed(req.nameEn) && Trimmed(req.nameMl)
      && Utf16Length(req.nameEn) <= MaxNameLength && Utf16Length(req.nameMl) <= MaxNameLength
      && (editing.None? ==> req.verb == Post && req.url == ListUrl)
      && (editing.Some? ==> req.verb == Put && req.url[..|ListUrl| + 1] == ListUrl + "/")
      && (editing.Some? && editing.value.id >= 0 ==>
            ParseId(Str(req.url[|ListUrl| + 1..])) == Some(editing.value.id))
  {
    TrimRemovesOnlyOuterWhiteSpace(rawEn);
    TrimRemovesOnlyOuterWhiteSpace(rawMl);
    if editing.Some? {
      var req := Validate(rawEn, rawMl, editing).value;
      var numeral := IntToString(editing.value.id);
      assert req.url == (ListUrl + "/") + numeral;
      assert req.url[|ListUrl| + 1..] == numeral;
      if editing.value.id >= 0 {
        ParseIdOfDecimal(editing.value.id);
      }
    }
  }

  /** What the form sends to create a gothram passes every check of
      `POST /api/gothram`, and the store keeps the names exactly as sent. */
  lemma SentCreateAccepted(rawEn: string, rawMl: string, t: Tables)
    requires Validate(rawEn, rawMl, None).Ok?
    ensures var req := Validate(rawEn, rawMl, None).value;
      && GothramRoute.Check(BodyOf(req)) == Ok((req.nameEn, req.nameMl))
      && GothramRoute.PostResult(true, Body(BodyOf(req)), None, t).response == Success(Lookup(t.NextId(), req.nameEn, req.nameMl))
  {
    SentRequestShape(rawEn, rawMl, None);
    var req := Validate(rawEn, rawMl, None).value;
    var json := BodyOf(req);
    FalsyNamesExact(GothramRoute.Required(json));
    TrimOfTrimmed(req.nameEn);
    TrimOfTrimmed(req.nameMl);
  }

  /** Every submit first clears the previous error; a refused form sends
      nothing and shows its message; a failed save shows the error and
      keeps the editing state; a successful save ends editing and leaves the
      page as the refresh left it. */
  lemma SubmitOutcome(s: FormState, rawEn: string, rawMl: string, reply: SaveReply, refresh: ListReply, tr: Node)
    ensures var (sent, after) := Submit(s, rawEn, rawMl, reply, refresh, tr);
      var v := Validate(rawEn, rawMl, s.editingGothram);
      var failed := SaveError(s.editingGothram.Some?, reply, tr);
      && (v.Err? ==> sent == None && after == s.(error := v.error))
      && (v.Ok? ==> sent == Some(v.value))
      && (v.Ok? && failed.Some? ==> after == s.(error := failed.value))
      && (v.Ok? && failed.None? ==>
            && !after.isEditing && after.editingGothram == None && !after.isLoading
            && (refresh.Listed? ==> after.gothrams == refresh.rows && after.error == "")
            && (!refresh.Listed? ==> after.gothrams == s.gothrams)
            && (refresh.ListRefused? ==> after.error != "")
            && (refresh.ListThrew? ==> after.error == refresh.message))
  {
  }

  /** A failed save whose response carries no `error` shows the
      translation of the create or update message, or that key itself when
      no translation is loaded. */
  lemma SaveFallbackMessage(editing: bool, tr: Node)
    ensures var key := if editing then "gothram.error.update" else "gothram.error.create";
      && SaveError(editing, Saved(false, None), tr) == Some(TextOf(Translate(tr, key)))
      && SaveError(editing, Saved(false, None), Object(map[])) == Some(key)
  {
    var key := if editing then "gothram.error.update" else "gothram.error.create";
    EmptyTranslationsEchoKey(key);
  }
}
