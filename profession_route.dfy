/**
 * `GET /api/profession` and `POST /api/profession`: the sorted list, and a
 * create handler that checks nothing and answers every failure with a
 * plain-text 500.
 */
module ProfessionRoute {
  import opened Options
  import opened JsValue
  import opened Listings
  import opened Db
  import opened Http

  /** `GET /api/profession` */
  method Get(db: Store, session: bool) returns (resp: Response<seq<Lookup>>)
    requires db.Valid()
    ensures !session ==> resp == PlainText(401, "Unauthorized")
    ensures session ==> resp.status == 200 && resp.payload.Json?
    ensures session ==> var rows := resp.payload.value;
      && SortedBy(rows, LookupName)
      && |rows| == |db.professions|
      && (forall row :: row in rows <==> row in db.professions.Values)
      && Distinct(rows)
  {
    if !session {
      return PlainText(401, "Unauthorized");
    }
    resp := Success(LookupListing(db.Contents(), ProfessionTable));
  }

  /** The answer of the `catch` block, whatever was thrown. */
  function Catch(): Response<Lookup> {
    PlainText(500, "Internal Server Error")
  }

  /** `POST /api/profession` on a store holding `t`, when the store reports
      `fault` for the insert. The names go to the store as received; the
      store itself refuses a value that is not a string. */
  function PostResult(session: bool, req: Request, fault: Option<Failure>, t: Tables): Outcome<Lookup> {
    if !session then Outcome(PlainText(401, "Unauthorized"), t)
    else if req.Malformed? then Outcome(Catch(), t)
    else if StringArg(Field(req.fields, "nameEn")).Err? || StringArg(Field(req.fields, "nameMl")).Err? then
      Outcome(Catch(), t)
    else
      match t.LookupInsert(Field(req.fields, "nameEn").s, Field(req.fields, "nameMl").s, fault)
      case Err(_) => Outcome(Catch(), t)
      case Ok(row) => Outcome(Success(row), t.WithLookup(ProfessionTable, row))
  }

  /** `POST /api/profession` */
  method Post(db: Store, session: bool, req: Request, fault: Option<Failure>) returns (resp: Response<Lookup>)
    requires db.Valid()
    modifies db
    ensures db.Valid()
    ensures Outcome(resp, db.Contents()) == PostResult(session, req, fault, old(db.Contents()))
  {
    if !session {
      return PlainText(401, "Unauthorized");
    }
    if req.Malformed? {
      return Catch();
    }
    var nameEn := StringArg(Field(req.fields, "nameEn"));
    var nameMl := StringArg(Field(req.fields, "nameMl"));
    if nameEn.Err? || nameMl.Err? {
      return Catch();
    }
    var profession := db.CreateLookup(ProfessionTable, nameEn.value, nameMl.value, fault);
    if profession.Err? {
      return Catch();
    }
    resp := Success(profession.value);
  }

  /** Only a successful create changes the store: it adds exactly one
      profession, under an id no row had, and leaves every other table
      alone. Without a session the answer is a plain-text 401. */
  lemma PostWritesOnlyOnSuccess(session: bool, req: Request, fault: Option<Failure>, t: Tables)
    requires t.Valid()
    ensures var o := PostResult(session, req, fault, t);
      && o.after.Valid()
      && (!session ==> o.response == PlainText(401, "Unauthorized"))
      && (o.response.status != 200 ==> o.after == t)
      && (o.response.status == 200 ==>
            && o.response.payload.Json?
            && var row := o.response.payload.value;
            && row.id !in t.professions
            && o.after.professions == t.professions[row.id := row]
            && |o.after.professions| == |t.professions| + 1
            && (forall w :: w != ProfessionTable ==> o.after.Lookups(w) == t.Lookups(w))
            && o.after.illams == t.illams && o.after.namboodiris == t.namboodiris)
  {
    if session && req.Body? {
      var nameEn, nameMl := Field(req.fields, "nameEn"), Field(req.fields, "nameMl");
      if nameEn.Str? && nameMl.Str? && t.LookupInsert(nameEn.s, nameMl.s, fault).Ok? {
        LookupInsertKeepsValid(t, ProfessionTable, nameEn.s, nameMl.s, fault);
      }
    }
  }

  /** Any two strings, empty ones included, are stored exactly as
      received when the store reports no failure: nothing is checked. */
  lemma NamesStoredAsReceived(nameEn: string, nameMl: string, t: Tables)
    ensures var o := PostResult(true, Body(map["nameEn" := Str(nameEn), "nameMl" := Str(nameMl)]), None, t);
      o.response == Success(Lookup(t.NextId(), nameEn, nameMl))
  {
  }

  /** With a session, every answer other than success is the plain-text
      500 and the store is unchanged. */
  lemma EveryFailureIs500(req: Request, fault: Option<Failure>, t: Tables)
    ensures var o := PostResult(true, req, fault, t);
      o.response.status != 200 ==> o == Outcome(PlainText(500, "Internal Server Error"), t)
  {
  }
}
