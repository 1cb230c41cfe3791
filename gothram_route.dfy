/**
 * `GET /api/gothram` and `POST /api/gothram`: the sorted list, and the
 * create handler with the aggregated missing-field check, the 200-character
 * cap, trimming and the mapping of a unique violation to 409.
 */
module GothramRoute {
  import opened Options
  import opened JsString
  import opened JsValue
  import opened Listings
  import opened Db
  import opened Http

  /** `GET /api/gothram` */
  method Get(db: Store, session: bool) returns (resp: Response<seq<Lookup>>)
    requires db.Valid()
    ensures !session ==> resp == Fail(401, "Unauthorized")
    ensures session ==> resp.status == 200 && resp.payload.Json?
    ensures session ==> var rows := resp.payload.value;
      && SortedBy(rows, LookupName)
      && |rows| == |db.gothrams|
      && (forall row :: row in rows <==> row in db.gothrams.Values)
      && Distinct(rows)
  {
    if !session {
      return Fail(401, "Unauthorized");
    }
    resp := Success(LookupListing(db.Contents(), GothramTable));
  }

  /** The fields `POST` requires, in the order it checks them. */
  function Required(json: map<string, Value>): seq<(string, Value)> {
    [("nameEn", Field(json, "nameEn")), ("nameMl", Field(json, "nameMl"))]
  }

  const RequiredNames := ["nameEn", "nameMl"]

  /** The `missingFields` array. */
  function Missing(json: map<string, Value>): seq<string> {
    FalsyNames(Required(json))
  }

  function Catch(f: Failure): Response<Lookup> {
    CatchCreate(f, "A gothram with this name already exists", "Error creating gothram")
  }

  /** Everything `POST` does before the insert: the response it returns
      early, or the trimmed names it asks the store to create. */
  function Check(json: map<string, Value>): Result<(string, string), Response<Lookup>> {
    var missing := Missing(json);
    if missing != [] then Err(Fail(400, MissingMessage(missing)))
    else if TooLong(json) then Err(Fail(400, LengthMessage))
    else
      match TrimField(json, "nameEn")
      case Err(f) => Err(Catch(f))
      case Ok(nameEn) =>
        match TrimField(json, "nameMl")
        case Err(f) => Err(Catch(f))
        case Ok(nameMl) => Ok((nameEn, nameMl))
  }

  /** `POST /api/gothram` on a store holding `t`, when the store reports
      `fault` for the insert. */
  function PostResult(session: bool, req: Request, fault: Option<Failure>, t: Tables): Outcome<Lookup> {
    if !session then Outcome(Fail(401, "Unauthorized"), t)
    else if req.Malformed? then Outcome(Catch(Failure("", req.message)), t)
    else
      match Check(req.fields)
      case Err(resp) => Outcome(resp, t)
      case Ok((nameEn, nameMl)) =>
        match t.LookupInsert(nameEn, nameMl, fault)
        case Err(f) => Outcome(Catch(f), t)
        case Ok(row) => Outcome(Success(row), t.WithLookup(GothramTable, row))
  }

  /** The two `push` statements that build `missingFields`. */
  method CollectMissing(json: map<string, Value>) returns (missingFields: seq<string>)
    ensures missingFields == Missing(json)
  {
    ghost var fields := Required(json);
    missingFields := [];
    if !Truthy(Field(json, "nameEn")) { missingFields := missingFields + ["nameEn"]; }
    FalsyNamesPush([], fields[0]);
    if !Truthy(Field(json, "nameMl")) { missingFields := missingFields + ["nameMl"]; }
    FalsyNamesPush(fields[..1], fields[1]);
    assert fields[..1] + [fields[1]] == fields;
  }

  /** `POST /api/gothram` */
  method Post(db: Store, session: bool, req: Request, fault: Option<Failure>) returns (resp: Response<Lookup>)
    requires db.Valid()
    modifies db
    ensures db.Valid()
    ensures Outcome(resp, db.Contents()) == PostResult(session, req, fault, old(db.Contents()))
  {
    if !session {
      return Fail(401, "Unauthorized");
    }
    if req.Malformed? {
      return Catch(Failure("", req.message));
    }
    var json := req.fields;
    if !Truthy(Field(json, "nameEn")) || !Truthy(Field(json, "nameMl")) {
      var missingFields := CollectMissing(json);
      FalsyNamesExact(Required(json));
      ghost var r := Required(json);
      assert !Truthy(r[0].1) || !Truthy(r[1].1);
      return Fail(400, MissingMessage(missingFields));
    }
    assert Missing(json) == [] by {
      FalsyNamesExact(Required(json));
    }
    if TooLong(json) {
      return Fail(400, LengthMessage);
    }
    var nameEn := TrimField(json, "nameEn");
    if nameEn.Err? {
      return Catch(nameEn.error);
    }
    var nameMl := TrimField(json, "nameMl");
    if nameMl.Err? {
      return Catch(nameMl.error);
    }
    var gothram := db.CreateLookup(GothramTable, nameEn.value, nameMl.value, fault);
    if gothram.Err? {
      return Catch(gothram.error);
    }
    resp := Success(gothram.value);
  }

  /** Only a successful create changes the store: it adds exactly one
      gothram, under an id no row had, and leaves every other table alone.
      Without a session the answer is 401 whatever the store holds. */
  lemma PostWritesOnlyOnSuccess(session: bool, req: Request, fault: Option<Failure>, t: Tables)
    requires t.Valid()
    ensures var o := PostResult(session, req, fault, t);
      && o.after.Valid()
      && (!session ==> o.response == Fail(401, "Unauthorized"))
      && (o.response.status != 200 ==> o.after == t)
      && (o.response.status == 200 ==>
            && o.response.payload.Json?
            && var row := o.response.payload.value;
            && row.id !in t.gothrams
            && o.after.gothrams == t.gothrams[row.id := row]
            && |o.after.gothrams| == |t.gothrams| + 1
            && (forall w :: w != GothramTable ==> o.after.Lookups(w) == t.Lookups(w))
            && o.after.illams == t.illams && o.after.namboodiris == t.namboodiris)
  {
    if session && req.Body? && Check(req.fields).Ok? {
      var (nameEn, nameMl) := Check(req.fields).value;
      if t.LookupInsert(nameEn, nameMl, fault).Ok? {
        LookupInsertKeepsValid(t, GothramTable, nameEn, nameMl, fault);
      }
    }
  }

  /** When a name is falsy the answer is 400 and its message names exactly
      the falsy names, `nameEn` before `nameMl`. */
  lemma MissingFieldsReported(json: map<string, Value>)
    requires Missing(json) != []
    ensures Check(json) == Err(Fail(400, MissingMessage(Missing(json))))
    ensures forall f :: f in Missing(json) <==> f in RequiredNames && !Truthy(Field(json, f))
    ensures !Truthy(Field(json, "nameEn")) && !Truthy(Field(json, "nameMl")) ==> Missing(json) == ["nameEn", "nameMl"]
  {
    var fields := Required(json);
    assert forall i :: 0 <= i < |fields| ==> fields[i] == (RequiredNames[i], Field(json, RequiredNames[i]));
    FalsyNamesExact(fields);
    assert fields[1..][1..] == [];
  }

  /** With both names present, the answer is the length error exactly when
      a name, as received and before trimming, is a string of more than
      200 UTF-16 code units. */
  lemma NameLengthCap(json: map<string, Value>)
    requires Missing(json) == []
    ensures TooLong(json) <==> Check(json) == Err(Fail(400, LengthMessage))
    ensures TooLong(json) <==>
      (exists f :: f in ["nameEn", "nameMl"] && Field(json, f).Str? && Utf16Length(Field(json, f).s) > MaxNameLength)
  {
    if !TooLong(json) && Check(json).Err? {
      assert Check(json).error.payload.ErrorJson?;
      assert Check(json).error.payload.details.Some?;
    }
  }

  /** `.length` counts a character outside the Basic Multilingual Plane
      twice: a name of more than 100 such characters is refused although
      it has at most 200 characters. */
  lemma AstralNameCountsTwice(nameEn: string, nameMl: string)
    requires |nameEn| > MaxNameLength / 2
    requires forall i :: 0 <= i < |nameEn| ==> nameEn[i] as int > 0xFFFF
    requires nameMl != ""
    ensures Check(map["nameEn" := Str(nameEn), "nameMl" := Str(nameMl)]) == Err(Fail(400, LengthMessage))
  {
    var json := map["nameEn" := Str(nameEn), "nameMl" := Str(nameMl)];
    Utf16LengthBounds(nameEn);
    FalsyNamesExact(Required(json));
    NameLengthCap(json);
  }

  /** What a successful check hands to the store: the two names trimmed,
      each at most 200 UTF-16 code units and without white space at either end,
      and nothing else. */
  lemma CreatedGothramTrimmed(json: map<string, Value>)
    requires Check(json).Ok?
    ensures var (nameEn, nameMl) := Check(json).value;
      && Field(json, "nameEn").Str? && nameEn == Trim(Field(json, "nameEn").s)
      && Field(json, "nameMl").Str? && nameMl == Trim(Field(json, "nameMl").s)
      && Trimmed(nameEn) && Trimmed(nameMl)
      && Utf16Length(nameEn) <= MaxNameLength && Utf16Length(nameMl) <= MaxNameLength
  {
    TrimRemovesOnlyOuterWhiteSpace(Field(json, "nameEn").s);
    TrimRemovesOnlyOuterWhiteSpace(Field(json, "nameMl").s);
    TrimUtf16Length(Field(json, "nameEn").s);
    TrimUtf16Length(Field(json, "nameMl").s);
  }

  /** Once the checks pass, a failure the store reports leaves it unchanged:
      a unique violation answers 409, any other failure 500 with the
      failure's message as `details`. */
  lemma StoreFailuresMapped(json: map<string, Value>, t: Tables, fault: Option<Failure>)
    requires Check(json).Ok? && fault.Some?
    ensures var o := PostResult(true, Body(json), fault, t);
      && o.after == t
      && (fault.value.code == UniqueViolation ==> o.response == Fail(409, "A gothram with this name already exists"))
      && (fault.value.code != UniqueViolation ==>
            o.response == Response(500, ErrorJson("Error creating gothram", Some(fault.value.message))))
  {
  }

  /** A create that passes the checks and meets no store failure answers
      with the new row under the next id, and the list read afterwards
      holds it. */
  lemma CreatedGothramListed(json: map<string, Value>, t: Tables)
    requires t.Valid() && Check(json).Ok?
    ensures var o := PostResult(true, Body(json), None, t);
      && o.response.status == 200 && o.response.payload.Json?
      && o.response.payload.value == Lookup(t.NextId(), Check(json).value.0, Check(json).value.1)
      && o.after.Valid()
      && o.response.payload.value in LookupListing(o.after, GothramTable)
  {
    var (nameEn, nameMl) := Check(json).value;
    LookupInsertKeepsValid(t, GothramTable, nameEn, nameMl, None);
    var row := Lookup(t.NextId(), nameEn, nameMl);
    assert t.WithLookup(GothramTable, row).gothrams[row.id] == row;
  }

  /** The handler does not reject a name made only of white space: it is
      truthy, and when within the cap it passes every check and is stored
      as the empty string. */
  lemma BlankNameStoredEmpty(nameEn: string, nameMl: string)
    requires nameEn != "" && Blank(nameEn) && Utf16Length(nameEn) <= MaxNameLength
    requires nameMl != "" && Utf16Length(nameMl) <= MaxNameLength
    ensures Check(map["nameEn" := Str(nameEn), "nameMl" := Str(nameMl)]).Ok?
    ensures Check(map["nameEn" := Str(nameEn), "nameMl" := Str(nameMl)]).value == ("", Trim(nameMl))
  {
    var json := map["nameEn" := Str(nameEn), "nameMl" := Str(nameMl)];
    FalsyNamesExact(Required(json));
    TrimRemovesOnlyOuterWhiteSpace(nameEn);
  }
}
