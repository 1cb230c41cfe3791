/**
 * `GET /api/namboodiri` and `POST /api/namboodiri`: the list of members with
 * their gothram, illam and profession, and a create handler that checks
 * nothing itself and passes the body to the store, answering every failure
 * with a plain-text 500.
 */
module NamboodiriRoute {
  import opened Options
  import opened JsValue
  import opened Listings
  import opened Db
  import opened Http

  /** A member as the handlers return it, with `include: { gothram: true,
      illam: true, profession: true }`. */
  datatype NamboodiriView = NamboodiriView(namboodiri: Namboodiri, gothram: Lookup, illam: Illam, profession: Lookup)

  function ViewOf(t: Tables, n: Namboodiri): NamboodiriView
    requires t.NamboodiriRefsExist(n)
  {
    NamboodiriView(n, t.gothrams[n.gothramId], t.illams[n.illamId], t.professions[n.professionId])
  }

  function ViewName(v: NamboodiriView): string {
    v.namboodiri.nameEn
  }

  function Views(t: Tables): map<int, NamboodiriView>
    requires t.Valid()
  {
    map k | k in t.namboodiris :: ViewOf(t, t.namboodiris[k])
  }

  /** Each member gives one view, and different members different views. */
  lemma ViewsOfRows(t: Tables)
    requires t.Valid()
    ensures Injective(Views(t))
    ensures forall v :: v in Views(t).Values <==> exists k :: k in t.namboodiris && v == ViewOf(t, t.namboodiris[k])
    ensures forall k :: k in Views(t) ==> 0 < k <= t.lastId
    ensures |Views(t)| == |t.namboodiris|
  {
    var views := Views(t);
    assert views.Keys == t.namboodiris.Keys;
    forall a, b | a in views && b in views && a != b ensures views[a] != views[b] {
      assert views[a].namboodiri.id == a && views[b].namboodiri.id == b;
    }
    forall v | v in views.Values ensures exists k :: k in t.namboodiris && v == ViewOf(t, t.namboodiris[k]) {
      ValueHasKey(views, v);
    }
    forall k | k in t.namboodiris ensures ViewOf(t, t.namboodiris[k]) in views.Values {
      assert views[k] == ViewOf(t, t.namboodiris[k]);
    }
  }

  /** The body of a successful `GET`: every member once, with the three rows
      it refers to, sorted ascending by `nameEn`. */
  function List(t: Tables): (rows: seq<NamboodiriView>)
    requires t.Valid()
    ensures SortedBy(rows, ViewName)
    ensures |rows| == |t.namboodiris|
    ensures forall v :: v in rows <==> exists k :: k in t.namboodiris && v == ViewOf(t, t.namboodiris[k])
    ensures Distinct(rows)
  {
    ViewsOfRows(t);
    Listing(Views(t), t.lastId, ViewName)
  }

  /** `GET /api/namboodiri` */
  method Get(db: Store, session: bool) returns (resp: Response<seq<NamboodiriView>>)
    requires db.Valid()
    ensures !session ==> resp == PlainText(401, "Unauthorized")
    ensures session ==> resp == Success(List(db.Contents()))
  {
    if !session {
      return PlainText(401, "Unauthorized");
    }
    resp := Success(List(db.Contents()));
  }

  /** `data.f || null`, as the store's optional `String` argument. */
  function OptionalArg(json: map<string, Value>, f: string): Result<Option<string>, Failure> {
    OptionalStringArg(Or(Field(json, f), Null))
  }

  /** The `data` object passed to `prisma.namboodiri.create`, or the
      store's refusal of an argument of the wrong type. */
  function NewNamboodiri(json: map<string, Value>): Result<Namboodiri, Failure> {
    var nameEn :- StringArg(Field(json, "nameEn"));
    var nameMl :- StringArg(Field(json, "nameMl"));
    var gothramId :- IntArg(Field(json, "gothramId"));
    var illamId :- IntArg(Field(json, "illamId"));
    var professionId :- IntArg(Field(json, "professionId"));
    var phone :- OptionalArg(json, "phone");
    var email :- OptionalArg(json, "email");
    var address :- OptionalArg(json, "address");
    var district :- OptionalArg(json, "district");
    var state :- OptionalArg(json, "state");
    var pincode :- OptionalArg(json, "pincode");
    Ok(Namboodiri(0, nameEn, nameMl, gothramId, illamId, professionId, phone, email, address, district, state, pincode))
  }

  /** The answer of the `catch` block, whatever was thrown. */
  function Catch(): Response<NamboodiriView> {
    PlainText(500, "Internal Server Error")
  }

  /** `POST /api/namboodiri` on a store holding `t`, when the store reports
      `fault` for the insert. */
  function PostResult(session: bool, req: Request, fault: Option<Failure>, t: Tables): Outcome<NamboodiriView>
    requires t.Valid()
  {
    if !session then Outcome(PlainText(401, "Unauthorized"), t)
    else if req.Malformed? then Outcome(Catch(), t)
    else
      match NewNamboodiri(req.fields)
      case Err(_) => Outcome(Catch(), t)
      case Ok(data) =>
        match t.NamboodiriInsert(data, fault)
        case Err(_) => Outcome(Catch(), t)
        case Ok(row) => Outcome(Success(ViewOf(t.WithNamboodiri(row), row)), t.WithNamboodiri(row))
  }

  /** `POST /api/namboodiri` */
  method Post(db: Store, session: bool, req: Request, fault: Option<Failure>) returns (resp: Response<NamboodiriView>)
    requires db.Valid()
    modifies db
    ensures db.Valid()
    ensures Outcome(resp, db.Contents()) == PostResult(session, req, fault, old(db.Contents()))
  {
    if !session {
      return PlainText(401, "Unauthorized");
    }
    if req.Malformed? {
      return Catch();
    }
    var data := NewNamboodiri(req.fields);
    if data.Err? {
      return Catch();
    }
    var namboodiri := db.CreateNamboodiri(data.value, fault);
    if namboodiri.Err? {
      return Catch();
    }
    resp := Success(ViewOf(db.Contents(), namboodiri.value));
  }

  /** Only a successful create changes the store: it adds exactly one
      member, under an id no row had, and leaves every other table alone.
      Without a session the answer is a plain-text 401. */
  lemma PostWritesOnlyOnSuccess(session: bool, req: Request, fault: Option<Failure>, t: Tables)
    requires t.Valid()
    ensures var o := PostResult(session, req, fault, t);
      && o.after.Valid()
      && (!session ==> o.response == PlainText(401, "Unauthorized"))
      && (o.response.status != 200 ==> o.after == t)
      && (o.response.status == 200 ==>
            && o.response.payload.Json?
            && var row := o.response.payload.value.namboodiri;
            && row.id !in t.namboodiris
            && o.after.namboodiris == t.namboodiris[row.id := row]
            && |o.after.namboodiris| == |t.namboodiris| + 1
            && (forall w :: o.after.Lookups(w) == t.Lookups(w))
            && o.after.illams == t.illams)
  {
    if session && req.Body? && NewNamboodiri(req.fields).Ok? {
      var data := NewNamboodiri(req.fields).value;
      if t.NamboodiriInsert(data, fault).Ok? {
        NamboodiriInsertKeepsValid(t, data, fault);
      }
    }
  }

  /** How an optional field is stored: its value as received when truthy,
      `NULL` otherwise; nothing is trimmed. */
  predicate StoredAsReceived(v: Value, stored: Option<string>) {
    if Truthy(v) then v.Str? && stored == Some(v.s) else stored == None
  }

  /** The row the handler asks the store to create holds the names and ids
      exactly as received, and each optional field as received or `NULL`. */
  lemma CreatedNamboodiriAsReceived(json: map<string, Value>)
    requires NewNamboodiri(json).Ok?
    ensures var data := NewNamboodiri(json).value;
      && Field(json, "nameEn") == Str(data.nameEn) && Field(json, "nameMl") == Str(data.nameMl)
      && Field(json, "gothramId") == Number(data.gothramId)
      && Field(json, "illamId") == Number(data.illamId)
      && Field(json, "professionId") == Number(data.professionId)
      && StoredAsReceived(Field(json, "phone"), data.phone)
      && StoredAsReceived(Field(json, "email"), data.email)
      && StoredAsReceived(Field(json, "address"), data.address)
      && StoredAsReceived(Field(json, "district"), data.district)
      && StoredAsReceived(Field(json, "state"), data.state)
      && StoredAsReceived(Field(json, "pincode"), data.pincode)
  {
  }

  /** No required-field or length check runs before the write: empty names
      and no optional fields are stored as they are, given existing
      references and no store failure. */
  lemma EmptyNamesAccepted(gothramId: int, illamId: int, professionId: int, t: Tables)
    requires t.Valid()
    requires gothramId in t.gothrams && illamId in t.illams && professionId in t.professions
    ensures var json := map["nameEn" := Str(""), "nameMl" := Str(""),
        "gothramId" := Number(gothramId), "illamId" := Number(illamId), "professionId" := Number(professionId)];
      var o := PostResult(true, Body(json), None, t);
      && o.response.status == 200 && o.response.payload.Json?
      && o.response.payload.value.namboodiri ==
           Namboodiri(t.NextId(), "", "", gothramId, illamId, professionId, None, None, None, None, None, None)
  {
    var json := map["nameEn" := Str(""), "nameMl" := Str(""),
        "gothramId" := Number(gothramId), "illamId" := Number(illamId), "professionId" := Number(professionId)];
    var data := Namboodiri(0, "", "", gothramId, illamId, professionId, None, None, None, None, None, None);
    assert Field(json, "phone") == Undefined && Field(json, "email") == Undefined;
    assert Field(json, "address") == Undefined && Field(json, "district") == Undefined;
    assert Field(json, "state") == Undefined && Field(json, "pincode") == Undefined;
    assert NewNamboodiri(json) == Ok(data);
    assert t.NamboodiriInsert(data, None) == Ok(data.(id := t.NextId()));
  }

  /** A reference to a row that does not exist is not caught by the
      handler: the store refuses it and the answer is the generic
      plain-text 500, with the store unchanged. */
  lemma DanglingReferenceIs500(json: map<string, Value>, fault: Option<Failure>, t: Tables)
    requires t.Valid() && NewNamboodiri(json).Ok? && !t.NamboodiriRefsExist(NewNamboodiri(json).value)
    ensures PostResult(true, Body(json), fault, t) == Outcome(PlainText(500, "Internal Server Error"), t)
  {
  }

  /** With a session, every answer other than success is the plain-text
      500 and the store is unchanged. */
  lemma EveryFailureIs500(req: Request, fault: Option<Failure>, t: Tables)
    requires t.Valid()
    ensures var o := PostResult(true, req, fault, t);
      o.response.status != 200 ==> o == Outcome(PlainText(500, "Internal Server Error"), t)
  {
  }
}
