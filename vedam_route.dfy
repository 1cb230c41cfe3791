/**
 * `GET /api/vedam` and `POST /api/vedam`: the sorted list, and a create
 * handler with one fixed message for missing names, no trimming, no length
 * cap, and a single 500 answer for every failure.
 */
module VedamRoute {
  import opened Options
  import opened JsValue
  import opened Listings
  import opened Db
  import opened Http

  /** `GET /api/vedam` */
  method Get(db: Store, session: bool) returns (resp: Response<seq<Lookup>>)
    requires db.Valid()
    ensures !session ==> resp == Fail(401, "Unauthorized")
    ensures session ==> resp.status == 200 && resp.payload.Json?
    ensures session ==> var rows := resp.payload.value;
      && SortedBy(rows, LookupName)
      && |rows| == |db.vedams|
      && (forall row :: row in rows <==> row in db.vedams.Values)
      && Distinct(rows)
  {
    if !session {
      return Fail(401, "Unauthorized");
    }
    resp := Success(LookupListing(db.Contents(), VedamTable));
  }

  const RequiredMessage := "Name in both languages is required"

  /** The answer of the `catch` block, whatever was thrown. */
  function Catch(): Response<Lookup> {
    Fail(500, "Error creating vedam")
  }

  /** `POST /api/vedam` on a store holding `t`, when the store reports
      `fault` for the insert. The names go to the store as received; the
      store itself refuses a value that is not a string. */
  function PostResult(session: bool, req: Request, fault: Option<Failure>, t: Tables): Outcome<Lookup> {
    if !session then Outcome(Fail(401, "Unauthorized"), t)
    else if req.Malformed? then Outcome(Catch(), t)
    else if !Truthy(Field(req.fields, "nameEn")) || !Truthy(Field(req.fields, "nameMl")) then
      Outcome(Fail(400, RequiredMessage), t)
    else if StringArg(Field(req.fields, "nameEn")).Err? || StringArg(Field(req.fields, "nameMl")).Err? then
      Outcome(Catch(), t)
    else
      match t.LookupInsert(Field(req.fields, "nameEn").s, Field(req.fields, "nameMl").s, fault)
      case Err(_) => Outcome(Catch(), t)
      case Ok(row) => Outcome(Success(row), t.WithLookup(VedamTable, row))
  }

  /** `POST /api/vedam` */
  method Post(db: Store, session: bool, req: Request, fault: Option<Failure>) returns (resp: Response<Lookup>)
    requires db.Valid()
    modifies db
    ensures db.Valid()
    ensures Outcome(resp, db.Contents()) == PostResult(session, req, fault, old(db.Contents()))
  {
    if !session {
      return Fail(401, "Unauthorized");
    }
    if req.Malformed? {
      return Catch();
    }
    var json := req.fields;
    if !Truthy(Field(json, "nameEn")) || !Truthy(Field(json, "nameMl")) {
      return Fail(400, RequiredMessage);
    }
    var nameEn := StringArg(Field(json, "nameEn"));
    var nameMl := StringArg(Field(json, "nameMl"));
    if nameEn.Err? || nameMl.Err? {
      return Catch();
    }
    var vedam := db.CreateLookup(VedamTable, nameEn.value, nameMl.value, fault);
    if vedam.Err? {
      return Catch();
    }
    resp := Success(vedam.value);
  }

  /** Only a successful create changes the store: it adds exactly one
      vedam, under an id no row had, and leaves every other table alone.
      Without a session the answer is 401 whatever the store holds. */
  lemma PostWritesOnlyOnSuccess(session: bool, req: Request, fault: Option<Failure>, t: Tables)
    requires t.Valid()
    ensures var o := PostResult(session, req, fault, t);
      && o.after.Valid()
      && (!session ==> o.response == Fail(401, "Unauthorized"))
      && (o.response.status != 200 ==> o.after == t)
      && (o.response.status == 200 ==>
            && o.response.payload.Json?
            && var row := o.response.payload.value;
            && row.id !in t.vedams
            && o.after.vedams == t.vedams[row.id := row]
            && |o.after.vedams| == |t.vedams| + 1
            && (forall w :: w != VedamTable ==> o.after.Lookups(w) == t.Lookups(w))
            && o.after.illams == t.illams && o.after.namboodiris == t.namboodiris)
  {
    if session && req.Body? {
      var json := req.fields;
      var nameEn, nameMl := Field(json, "nameEn"), Field(json, "nameMl");
      if Truthy(nameEn) && Truthy(nameMl) && nameEn.Str? && nameMl.Str?
        && t.LookupInsert(nameEn.s, nameMl.s, fault).Ok?
      {
        LookupInsertKeepsValid(t, VedamTable, nameEn.s, nameMl.s, fault);
      }
    }
  }

  /** A falsy name, either one or both, gets the same fixed message; the
      missing names are not listed. */
  lemma MissingNamesNotListed(json: map<string, Value>, fault: Option<Failure>, t: Tables)
    requires !Truthy(Field(json, "nameEn")) || !Truthy(Field(json, "nameMl"))
    ensures PostResult(true, Body(json), fault, t) == Outcome(Fail(400, RequiredMessage), t)
  {
  }

  /** Any two non-empty strings are stored exactly as received, however
      long and whatever white space they carry, when the store reports no
      failure. */
  lemma NamesStoredAsReceived(nameEn: string, nameMl: string, t: Tables)
    requires nameEn != "" && nameMl != ""
    ensures var o := PostResult(true, Body(map["nameEn" := Str(nameEn), "nameMl" := Str(nameMl)]), None, t);
      o.response == Success(Lookup(t.NextId(), nameEn, nameMl))
  {
  }

  /** Every failure after the name check, a unique violation included,
      gets the same 500 answer and leaves the store unchanged: there is no
      409 here. */
  lemma EveryFailureIs500(json: map<string, Value>, fault: Option<Failure>, t: Tables)
    requires Truthy(Field(json, "nameEn")) && Truthy(Field(json, "nameMl"))
    ensures var o := PostResult(true, Body(json), fault, t);
      o.response.status != 200 ==> o == Outcome(Fail(500, "Error creating vedam"), t)
    ensures fault.Some? ==> PostResult(true, Body(json), fault, t) == Outcome(Fail(500, "Error creating vedam"), t)
  {
  }
}
