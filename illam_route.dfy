/**
 * `GET /api/illam` and `POST /api/illam`: the list of households with their
 * gothram, gramam and vedam, and the create handler with its fixed order
 * of checks — session, required fields, name length, the three references,
 * then normalisation and the insert.
 */
module IllamRoute {
  import opened Options
  import opened JsString
  import opened JsValue
  import opened Listings
  import opened Db
  import opened Http

  /** An illam as the handlers return it, with `include: { gothram: true,
      gramam: true, vedam: true }`. */
  datatype IllamView = IllamView(illam: Illam, gothram: Lookup, gramam: Lookup, vedam: Lookup)

  function ViewOf(t: Tables, i: Illam): IllamView
    requires t.IllamRefsExist(i)
  {
    IllamView(i, t.gothrams[i.gothramId], t.gramams[i.gramamId], t.vedams[i.vedamId])
  }

  function ViewName(v: IllamView): string {
    v.illam.nameEn
  }

  function Views(t: Tables): map<int, IllamView>
    requires t.Valid()
  {
    map k | k in t.illams :: ViewOf(t, t.illams[k])
  }

  /** The body of a successful `GET`: every illam once, with its three
      lookup rows, sorted ascending by `nameEn`. */
  function List(t: Tables): (rows: seq<IllamView>)
    requires t.Valid()
    ensures SortedBy(rows, ViewName)
    ensures |rows| == |t.illams|
    ensures forall v :: v in rows <==> exists k :: k in t.illams && v == ViewOf(t, t.illams[k])
    ensures Distinct(rows)
  {
    ViewsOfRows(t);
    Listing(Views(t), t.lastId, ViewName)
  }

  /** Each illam gives one view, and different illams different views. */
  lemma ViewsOfRows(t: Tables)
    requires t.Valid()
    ensures Injective(Views(t))
    ensures forall v :: v in Views(t).Values <==> exists k :: k in t.illams && v == ViewOf(t, t.illams[k])
    ensures forall k :: k in Views(t) ==> 0 < k <= t.lastId
    ensures |Views(t)| == |t.illams|
  {
    var views := Views(t);
    assert views.Keys == t.illams.Keys;
    forall a, b | a in views && b in views && a != b ensures views[a] != views[b] {
      assert views[a].illam.id == a && views[b].illam.id == b;
    }
    forall v | v in views.Values ensures exists k :: k in t.illams && v == ViewOf(t, t.illams[k]) {
      ValueHasKey(views, v);
      var k :| k in views && views[k] == v;
    }
    forall k | k in t.illams ensures ViewOf(t, t.illams[k]) in views.Values {
      assert views[k] == ViewOf(t, t.illams[k]);
    }
  }

  /** `GET /api/illam` */
  method Get(db: Store, session: bool) returns (resp: Response<seq<IllamView>>)
    requires db.Valid()
    ensures !session ==> resp == Fail(401, "Unauthorized")
    ensures session ==> resp == Success(List(db.Contents()))
  {
    if !session {
      return Fail(401, "Unauthorized");
    }
    resp := Success(List(db.Contents()));
  }

  /** The fields `POST` requires, in the order it checks them. */
  function Required(json: map<string, Value>): seq<(string, Value)> {
    [("nameEn", Field(json, "nameEn")), ("nameMl", Field(json, "nameMl")),
     ("gothramId", Field(json, "gothramId")), ("gramamId", Field(json, "gramamId")),
     ("vedamId", Field(json, "vedamId"))]
  }

  const RequiredNames := ["nameEn", "nameMl", "gothramId", "gramamId", "vedamId"]

  /** The `missingFields` array. */
  function Missing(json: map<string, Value>): seq<string> {
    FalsyNames(Required(json))
  }

  /** `findUnique` found a row for `parseInt(json.<x>Id)`. An id that does
      not parse finds nothing. */
  predicate Found(m: map<int, Lookup>, id: Option<int>) {
    id.Some? && id.value in m
  }

  function Catch(f: Failure): Response<IllamView> {
    CatchCreate(f, "An illam with this name already exists", "Error creating illam")
  }

  /** The `data` object passed to `prisma.illam.create`, or the `TypeError`
      its construction throws; the properties are evaluated in order. */
  function NewIllam(json: map<string, Value>, gothramId: int, gramamId: int, vedamId: int): Result<Illam, Failure> {
    var nameEn :- TrimField(json, "nameEn");
    var nameMl :- TrimField(json, "nameMl");
    var phone :- TrimOptionalField(json, "phone");
    var address :- TrimOptionalField(json, "address");
    var district :- TrimOptionalField(json, "district");
    var state :- TrimOptionalField(json, "state");
    var pincode :- TrimOptionalField(json, "pincode");
    var mapsUrl :- TrimOptionalField(json, "mapsUrl");
    Ok(Illam(0, nameEn, nameMl, gothramId, gramamId, vedamId, phone, address, district, state, pincode, mapsUrl))
  }

  /** Everything `POST` does before the insert: the response it returns
      early, or the row it asks the store to create. */
  function Check(json: map<string, Value>, t: Tables): Result<Illam, Response<IllamView>> {
    var missing := Missing(json);
    var gothramId := ParseId(Field(json, "gothramId"));
    var gramamId := ParseId(Field(json, "gramamId"));
    var vedamId := ParseId(Field(json, "vedamId"));
    if missing != [] then Err(Fail(400, MissingMessage(missing)))
    else if TooLong(json) then Err(Fail(400, LengthMessage))
    else if !Found(t.gothrams, gothramId) then Err(Fail(400, "Invalid gothram selected"))
    else if !Found(t.gramams, gramamId) then Err(Fail(400, "Invalid gramam selected"))
    else if !Found(t.vedams, vedamId) then Err(Fail(400, "Invalid vedam selected"))
    else
      match NewIllam(json, gothramId.value, gramamId.value, vedamId.value)
      case Err(f) => Err(Catch(f))
      case Ok(data) => Ok(data)
  }

  /** `POST /api/illam` on a store holding `t`, when the store reports
      `fault` for the insert (`None`: the insert succeeds unless a
      reference dangles). */
  function PostResult(session: bool, req: Request, fault: Option<Failure>, t: Tables): Outcome<IllamView>
    requires t.Valid()
  {
    if !session then Outcome(Fail(401, "Unauthorized"), t)
    else if req.Malformed? then Outcome(Catch(Failure("", req.message)), t)
    else
      match Check(req.fields, t)
      case Err(resp) => Outcome(resp, t)
      case Ok(data) =>
        match t.IllamInsert(data, fault)
        case Err(f) => Outcome(Catch(f), t)
        case Ok(row) => Outcome(Success(ViewOf(t.WithIllam(row), row)), t.WithIllam(row))
  }

  /** The guard of the missing-field branch holds exactly when the list
      of missing fields is not empty. */
  lemma MissingIffSomeFalsy(json: map<string, Value>)
    ensures Missing(json) == [] <==>
      Truthy(Field(json, "nameEn")) && Truthy(Field(json, "nameMl")) && Truthy(Field(json, "gothramId"))
      && Truthy(Field(json, "gramamId")) && Truthy(Field(json, "vedamId"))
  {
    var r := Required(json);
    FalsyNamesExact(r);
    if Missing(json) == [] {
      assert Truthy(r[0].1) && Truthy(r[1].1) && Truthy(r[2].1) && Truthy(r[3].1) && Truthy(r[4].1);
    }
  }

  /** The five `push` statements that build `missingFields`. */
  method CollectMissing(json: map<string, Value>) returns (missingFields: seq<string>)
    ensures missingFields == Missing(json)
  {
    ghost var fields := Required(json);
    missingFields := [];
    if !Truthy(Field(json, "nameEn")) { missingFields := missingFields + ["nameEn"]; }
    FalsyNamesPush([], fields[0]);
    assert missingFields == FalsyNames(fields[..1]);
    if !Truthy(Field(json, "nameMl")) { missingFields := missingFields + ["nameMl"]; }
    FalsyNamesPush(fields[..1], fields[1]);
    assert fields[..1] + [fields[1]] == fields[..2];
    if !Truthy(Field(json, "gothramId")) { missingFields := missingFields + ["gothramId"]; }
    FalsyNamesPush(fields[..2], fields[2]);
    assert fields[..2] + [fields[2]] == fields[..3];
    if !Truthy(Field(json, "gramamId")) { missingFields := missingFields + ["gramamId"]; }
    FalsyNamesPush(fields[..3], fields[3]);
    assert fields[..3] + [fields[3]] == fields[..4];
    if !Truthy(Field(json, "vedamId")) { missingFields := missingFields + ["vedamId"]; }
    FalsyNamesPush(fields[..4], fields[4]);
    assert fields[..4] + [fields[4]] == fields;
  }

  /** The checks of `POST /api/illam` before the create: the required
      fields, the name lengths and the three lookups, then the `data`
      object. */
  method CheckRequest(db: Store, json: map<string, Value>) returns (r: Result<Illam, Response<IllamView>>)
    requires db.Valid()
    ensures r == Check(json, db.Contents())
  {
    if !Truthy(Field(json, "nameEn")) || !Truthy(Field(json, "nameMl")) || !Truthy(Field(json, "gothramId"))
      || !Truthy(Field(json, "gramamId")) || !Truthy(Field(json, "vedamId"))
    {
      var missingFields := CollectMissing(json);
      MissingIffSomeFalsy(json);
      return Err(Fail(400, MissingMessage(missingFields)));
    }
    MissingIffSomeFalsy(json);
    if TooLong(json) {
      return Err(Fail(400, LengthMessage));
    }
    var gothramId := ParseId(Field(json, "gothramId"));
    var gothram: Option<Lookup> := None;
    if gothramId.Some? {
      gothram := db.FindLookup(GothramTable, gothramId.value);
    }
    if gothram.None? {
      return Err(Fail(400, "Invalid gothram selected"));
    }
    var gramamId := ParseId(Field(json, "gramamId"));
    var gramam: Option<Lookup> := None;
    if gramamId.Some? {
      gramam := db.FindLookup(GramamTable, gramamId.value);
    }
    if gramam.None? {
      return Err(Fail(400, "Invalid gramam selected"));
    }
    var vedamId := ParseId(Field(json, "vedamId"));
    var vedam: Option<Lookup> := None;
    if vedamId.Some? {
      vedam := db.FindLookup(VedamTable, vedamId.value);
    }
    if vedam.None? {
      return Err(Fail(400, "Invalid vedam selected"));
    }
    var data := NewIllam(json, gothramId.value, gramamId.value, vedamId.value);
    if data.Err? {
      return Err(Catch(data.error));
    }
    r := Ok(data.value);
  }

  /** `POST /api/illam` */
  method Post(db: Store, session: bool, req: Request, fault: Option<Failure>) returns (resp: Response<IllamView>)
    requires db.Valid()
    modifies db
    ensures db.Valid()
    ensures Outcome(resp, db.Contents()) == PostResult(session, req, fault, old(db.Contents()))
  {
    if !session {
      return Fail(401, "Unauthorized");
    }
    if req.Malformed? {
      return Catch(Failure("", req.message));
    }
    var data := CheckRequest(db, req.fields);
    if data.Err? {
      return data.error;
    }
    var illam := db.CreateIllam(data.value, fault);
    if illam.Err? {
      return Catch(illam.error);
    }
    resp := Success(ViewOf(db.Contents(), illam.value));
  }

  /** Only a successful create changes the store: it adds exactly one
      illam, under an id no row had, and leaves every other table alone.
      Without a session the answer is 401 whatever the store holds. */
  lemma PostWritesOnlyOnSuccess(session: bool, req: Request, fault: Option<Failure>, t: Tables)
    requires t.Valid()
    ensures var o := PostResult(session, req, fault, t);
      && o.after.Valid()
      && (!session ==> o.response == Fail(401, "Unauthorized"))
      && (o.response.status != 200 ==> o.after == t)
      && (o.response.status == 200 ==>
            && o.response.payload.Json?
            && var row := o.response.payload.value.illam;
            && row.id !in t.illams
            && o.after.illams == t.illams[row.id := row]
            && |o.after.illams| == |t.illams| + 1
            && (forall w :: o.after.Lookups(w) == t.Lookups(w))
            && o.after.namboodiris == t.namboodiris)
  {
    if session && req.Body? {
      var checked := Check(req.fields, t);
      if checked.Ok? {
        if t.IllamInsert(checked.value, fault).Ok? {
          IllamInsertKeepsValid(t, checked.value, fault);
        }
      } else {
        CheckRefusalIsNot200(req.fields, t);
      }
    }
  }

  /** Every early response of the checks is an error status. */
  lemma CheckRefusalIsNot200(json: map<string, Value>, t: Tables)
    requires Check(json, t).Err?
    ensures Check(json, t).error.status != 200
  {
  }

  /** When a required field is falsy the answer is 400 and its message
      names exactly the falsy required fields, in the order `nameEn`,
      `nameMl`, `gothramId`, `gramamId`, `vedamId`. */
  lemma MissingFieldsReported(json: map<string, Value>, t: Tables)
    requires Missing(json) != []
    ensures Check(json, t) == Err(Fail(400, MissingMessage(Missing(json))))
    ensures forall f :: f in Missing(json) <==> f in RequiredNames && !Truthy(Field(json, f))
    ensures forall i, j ::
      0 <= i < j < |RequiredNames| && !Truthy(Field(json, RequiredNames[i])) && !Truthy(Field(json, RequiredNames[j])) ==>
      exists p, q :: 0 <= p < q < |Missing(json)| && Missing(json)[p] == RequiredNames[i] && Missing(json)[q] == RequiredNames[j]
  {
    var fields := Required(json);
    assert forall i :: 0 <= i < |fields| ==> fields[i] == (RequiredNames[i], Field(json, RequiredNames[i]));
    FalsyNamesExact(fields);
    forall i, j | 0 <= i < j < |RequiredNames| && !Truthy(Field(json, RequiredNames[i])) && !Truthy(Field(json, RequiredNames[j]))
      ensures exists p, q :: 0 <= p < q < |Missing(json)| && Missing(json)[p] == RequiredNames[i] && Missing(json)[q] == RequiredNames[j]
    {
      FalsyNamesOrdered(fields, i, j);
    }
  }

  /** With every required field present, the answer is the length error
      exactly when a name, as received and before trimming, is a string
      of more than 200 UTF-16 code units. */
  lemma NameLengthCap(json: map<string, Value>, t: Tables)
    requires Missing(json) == []
    ensures TooLong(json) <==> Check(json, t) == Err(Fail(400, LengthMessage))
    ensures TooLong(json) <==>
      (exists f :: f in ["nameEn", "nameMl"] && Field(json, f).Str? && Utf16Length(Field(json, f).s) > MaxNameLength)
  {
    if !TooLong(json) && Check(json, t).Err? && Check(json, t).error.payload.ErrorJson? {
      var e := Check(json, t).error.payload.error;
      assert e != LengthMessage by {
        assert LengthMessage[0] == 'N';
        assert e[0] == 'I' || e == "Error creating illam";
      }
    }
  }

  /** The references are checked in the order gothram, gramam, vedam; the
      first one that names no row decides the answer and the later ones
      are not looked at. When all three exist, no 400 follows. */
  lemma ReferencesCheckedInOrder(json: map<string, Value>, t: Tables)
    requires Missing(json) == [] && !TooLong(json)
    ensures var gothramId := ParseId(Field(json, "gothramId"));
      var gramamId := ParseId(Field(json, "gramamId"));
      var vedamId := ParseId(Field(json, "vedamId"));
      && (!Found(t.gothrams, gothramId) ==> Check(json, t) == Err(Fail(400, "Invalid gothram selected")))
      && (Found(t.gothrams, gothramId) && !Found(t.gramams, gramamId) ==>
            Check(json, t) == Err(Fail(400, "Invalid gramam selected")))
      && (Found(t.gothrams, gothramId) && Found(t.gramams, gramamId) && !Found(t.vedams, vedamId) ==>
            Check(json, t) == Err(Fail(400, "Invalid vedam selected")))
      && (Found(t.gothrams, gothramId) && Found(t.gramams, gramamId) && Found(t.vedams, vedamId) ==>
            Check(json, t).Ok? || Check(json, t).error.status == 500)
  {
  }

  /** How an optional field is stored: `NULL` when absent, `null` or blank,
      otherwise its trimmed text. */
  predicate StoredOptional(v: Value, stored: Option<string>) {
    match v
    case Undefined => stored == None
    case Null => stored == None
    case Str(s) => if Blank(s) then stored == None else stored == Some(Trim(s))
    case _ => false
  }

  lemma TrimOptionalFieldStored(json: map<string, Value>, f: string)
    requires TrimOptionalField(json, f).Ok?
    ensures StoredOptional(Field(json, f), TrimOptionalField(json, f).value)
    ensures TrimOptionalField(json, f).value.Some? ==>
      var x := TrimOptionalField(json, f).value.value; x != "" && Trimmed(x)
  {
    if Field(json, f).Str? {
      TrimRemovesOnlyOuterWhiteSpace(Field(json, f).s);
    }
  }

  /** A row that passes the checks refers to rows that exist. */
  lemma CheckedRefsExist(json: map<string, Value>, t: Tables)
    requires Check(json, t).Ok?
    ensures t.IllamRefsExist(Check(json, t).value)
  {
  }

  /** The row a successful check hands to the store: both names trimmed
      (so at most 200 UTF-16 code units and without white space at either end),
      the parsed ids, which all name existing rows, and each optional field
      trimmed, or `NULL` when absent or blank. */
  lemma CreatedIllamNormalized(json: map<string, Value>, t: Tables)
    requires Check(json, t).Ok?
    ensures var data := Check(json, t).value;
      && Field(json, "nameEn").Str? && data.nameEn == Trim(Field(json, "nameEn").s)
      && Field(json, "nameMl").Str? && data.nameMl == Trim(Field(json, "nameMl").s)
      && Trimmed(data.nameEn) && Trimmed(data.nameMl)
      && Utf16Length(data.nameEn) <= MaxNameLength && Utf16Length(data.nameMl) <= MaxNameLength
      && ParseId(Field(json, "gothramId")) == Some(data.gothramId)
      && ParseId(Field(json, "gramamId")) == Some(data.gramamId)
      && ParseId(Field(json, "vedamId")) == Some(data.vedamId)
      && t.IllamRefsExist(data)
      && StoredOptional(Field(json, "phone"), data.phone)
      && StoredOptional(Field(json, "address"), data.address)
      && StoredOptional(Field(json, "district"), data.district)
      && StoredOptional(Field(json, "state"), data.state)
      && StoredOptional(Field(json, "pincode"), data.pincode)
      && StoredOptional(Field(json, "mapsUrl"), data.mapsUrl)
  {
    var data := Check(json, t).value;
    TrimRemovesOnlyOuterWhiteSpace(Field(json, "nameEn").s);
    TrimRemovesOnlyOuterWhiteSpace(Field(json, "nameMl").s);
    TrimUtf16Length(Field(json, "nameEn").s);
    TrimUtf16Length(Field(json, "nameMl").s);
    TrimOptionalFieldStored(json, "phone");
    TrimOptionalFieldStored(json, "address");
    TrimOptionalFieldStored(json, "district");
    TrimOptionalFieldStored(json, "state");
    TrimOptionalFieldStored(json, "pincode");
    TrimOptionalFieldStored(json, "mapsUrl");
  }

  /** Once the checks pass, a failure the store reports leaves it unchanged:
      a unique violation answers 409, any other failure 500 with the
      failure's message as `details`. */
  lemma StoreFailuresMapped(json: map<string, Value>, t: Tables, fault: Option<Failure>)
    requires t.Valid() && Check(json, t).Ok? && fault.Some?
    ensures var o := PostResult(true, Body(json), fault, t);
      && o.after == t
      && (fault.value.code == UniqueViolation ==> o.response == Fail(409, "An illam with this name already exists"))
      && (fault.value.code != UniqueViolation ==>
            o.response == Response(500, ErrorJson("Error creating illam", Some(fault.value.message))))
  {
    CheckedRefsExist(json, t);
  }

  /** A create that passes the checks and meets no store failure answers
      with the new row under the next id, and the list read afterwards
      holds it with its relations. */
  lemma CreatedIllamListed(json: map<string, Value>, t: Tables)
    requires t.Valid() && Check(json, t).Ok?
    ensures var o := PostResult(true, Body(json), None, t);
      && o.response.status == 200 && o.response.payload.Json?
      && o.response.payload.value.illam == Check(json, t).value.(id := t.NextId())
      && o.after.Valid()
      && o.response.payload.value in List(o.after)
  {
    var data := Check(json, t).value;
    CheckedRefsExist(json, t);
    IllamInsertKeepsValid(t, data, None);
    var row := data.(id := t.NextId());
    var after := t.WithIllam(row);
    assert after.illams[row.id] == row;
    assert ViewOf(after, after.illams[row.id]) in List(after);
  }
}
