/**
 * The relational store behind the route handlers: six tables keyed by an
 * integer id, and the part of Prisma's `findUnique` and `create` that the
 * handlers rely on. Ids are handed out from one counter, so every id in
 * every table lies in `1..lastId`.
 */
module Db {
  import opened Options
  import opened JsValue
  import opened Listings

  /** A row of one of the four lookup tables (gothram, gramam, vedam,
      profession): an id and a name in English and in Malayalam. */
  datatype Lookup = Lookup(id: int, nameEn: string, nameMl: string)

  /** A household, with its three required references and its optional
      contact and location fields (`None` is a database `NULL`). */
  datatype Illam = Illam(
    id: int, nameEn: string, nameMl: string,
    gothramId: int, gramamId: int, vedamId: int,
    phone: Option<string>, address: Option<string>, district: Option<string>,
    state: Option<string>, pincode: Option<string>, mapsUrl: Option<string>)

  /** A member, with its three required references and its optional
      contact fields. */
  datatype Namboodiri = Namboodiri(
    id: int, nameEn: string, nameMl: string,
    gothramId: int, illamId: int, professionId: int,
    phone: Option<string>, email: Option<string>, address: Option<string>,
    district: Option<string>, state: Option<string>, pincode: Option<string>)

  /** Which of the four lookup tables. */
  datatype Table = GothramTable | GramamTable | VedamTable | ProfessionTable

  /** What a failing call throws: the Prisma error code (`""` when the
      error has none, as for argument validation or a `TypeError`) and the
      message. */
  datatype Failure = Failure(code: string, message: string)

  /** Prisma's code for a unique constraint violation. */
  const UniqueViolation := "P2002"
  /** Prisma's code for a foreign key constraint violation. */
  const ForeignKeyViolation := "P2003"

  const DanglingReference := Failure(ForeignKeyViolation, "Foreign key constraint failed")

  /** A value of the whole store at one moment. */
  datatype Tables = Tables(
    gothrams: map<int, Lookup>, gramams: map<int, Lookup>,
    vedams: map<int, Lookup>, professions: map<int, Lookup>,
    illams: map<int, Illam>, namboodiris: map<int, Namboodiri>,
    lastId: int)
  {
    function Lookups(which: Table): map<int, Lookup> {
      match which
      case GothramTable => gothrams
      case GramamTable => gramams
      case VedamTable => vedams
      case ProfessionTable => professions
    }

    /** The id the next successful insert receives. */
    function NextId(): int {
      lastId + 1
    }

    predicate IllamRefsExist(i: Illam) {
      i.gothramId in gothrams && i.gramamId in gramams && i.vedamId in vedams
    }

    predicate NamboodiriRefsExist(n: Namboodiri) {
      n.gothramId in gothrams && n.illamId in illams && n.professionId in professions
    }

    /** Every row sits under its own id, ids lie in `1..lastId`, and every
        reference of an illam or a namboodiri names an existing row. */
    ghost predicate Valid() {
      && lastId >= 0
      && LookupTableOk(gothrams, lastId) && LookupTableOk(gramams, lastId)
      && LookupTableOk(vedams, lastId) && LookupTableOk(professions, lastId)
      && (forall k :: k in illams ==> 0 < k <= lastId && illams[k].id == k && IllamRefsExist(illams[k]))
      && (forall k :: k in namboodiris ==>
            0 < k <= lastId && namboodiris[k].id == k && NamboodiriRefsExist(namboodiris[k]))
    }

    /** `prisma.<table>.create({ data: { nameEn, nameMl } })`: the store's
        own failure, if it reports one, or the new row. */
    function LookupInsert(nameEn: string, nameMl: string, fault: Option<Failure>): Result<Lookup, Failure> {
      if fault.Some? then Err(fault.value) else Ok(Lookup(NextId(), nameEn, nameMl))
    }

    function WithLookup(which: Table, row: Lookup): Tables {
      match which
      case GothramTable => this.(gothrams := gothrams[row.id := row], lastId := row.id)
      case GramamTable => this.(gramams := gramams[row.id := row], lastId := row.id)
      case VedamTable => this.(vedams := vedams[row.id := row], lastId := row.id)
      case ProfessionTable => this.(professions := professions[row.id := row], lastId := row.id)
    }

    /** `prisma.illam.create`: a dangling reference violates a foreign key;
        otherwise the store's own failure, or the row under the next id. */
    function IllamInsert(data: Illam, fault: Option<Failure>): Result<Illam, Failure> {
      if !IllamRefsExist(data) then Err(DanglingReference)
      else if fault.Some? then Err(fault.value)
      else Ok(data.(id := NextId()))
    }

    function WithIllam(row: Illam): Tables {
      this.(illams := illams[row.id := row], lastId := row.id)
    }

    /** `prisma.namboodiri.create`, with the same order of failures. */
    function NamboodiriInsert(data: Namboodiri, fault: Option<Failure>): Result<Namboodiri, Failure> {
      if !NamboodiriRefsExist(data) then Err(DanglingReference)
      else if fault.Some? then Err(fault.value)
      else Ok(data.(id := NextId()))
    }

    function WithNamboodiri(row: Namboodiri): Tables {
      this.(namboodiris := namboodiris[row.id := row], lastId := row.id)
    }
  }

  ghost predicate LookupTableOk(m: map<int, Lookup>, lastId: int) {
    forall k :: k in m ==> 0 < k <= lastId && m[k].id == k
  }

  function LookupName(row: Lookup): string {
    row.nameEn
  }

  /** `prisma.<table>.findMany({ orderBy: { nameEn: 'asc' } })`: every row
      of the table once, sorted ascending by `nameEn`. */
  function LookupListing(t: Tables, which: Table): (rows: seq<Lookup>)
    requires t.Valid()
    ensures SortedBy(rows, LookupName)
    ensures |rows| == |t.Lookups(which)|
    ensures forall row :: row in rows <==> row in t.Lookups(which).Values
    ensures Distinct(rows)
  {
    var m := t.Lookups(which);
    assert LookupTableOk(m, t.lastId);
    assert Injective(m) by {
      forall a, b | a in m && b in m && a != b ensures m[a] != m[b] {
        assert m[a].id == a && m[b].id == b;
      }
    }
    Listing(m, t.lastId, LookupName)
  }

  /** The store's tables before anything is written. */
  const Empty := Tables(map[], map[], map[], map[], map[], map[], 0)

  lemma LookupTableExtended(m: map<int, Lookup>, lastId: int, row: Lookup)
    requires LookupTableOk(m, lastId) && lastId >= 0 && row.id == lastId + 1
    ensures LookupTableOk(m[row.id := row], row.id) && LookupTableOk(m, row.id)
  {
    var m' := m[row.id := row];
    forall k | k in m' ensures 0 < k <= row.id && m'[k].id == k {
      if k != row.id {
        assert k in m && m'[k] == m[k];
      }
    }
  }

  /** Adding a row under the next id to a lookup table keeps the store valid. */
  lemma WithLookupValid(t: Tables, which: Table, row: Lookup)
    requires t.Valid() && row.id == t.NextId()
    ensures t.WithLookup(which, row).Valid()
  {
    LookupTableExtended(t.Lookups(which), t.lastId, row);
    LookupTableExtended(t.gothrams, t.lastId, row);
    LookupTableExtended(t.gramams, t.lastId, row);
    LookupTableExtended(t.vedams, t.lastId, row);
    LookupTableExtended(t.professions, t.lastId, row);
    var t' := t.WithLookup(which, row);
    assert t'.lastId == row.id;
    assert t'.illams == t.illams && t'.namboodiris == t.namboodiris;
    assert forall w :: t.Lookups(w).Keys <= t'.Lookups(w).Keys;
  }

  /** A successful insert adds exactly one row, under a fresh id, to one
      table, leaves every other table as it was and keeps the store valid. */
  lemma LookupInsertKeepsValid(t: Tables, which: Table, nameEn: string, nameMl: string, fault: Option<Failure>)
    requires t.Valid()
    requires t.LookupInsert(nameEn, nameMl, fault).Ok?
    ensures var row := t.LookupInsert(nameEn, nameMl, fault).value;
      var t' := t.WithLookup(which, row);
      && t'.Valid()
      && row.id !in t.Lookups(which)
      && t'.Lookups(which) == t.Lookups(which)[row.id := row]
      && |t'.Lookups(which)| == |t.Lookups(which)| + 1
      && (forall w :: w != which ==> t'.Lookups(w) == t.Lookups(w))
      && t'.illams == t.illams && t'.namboodiris == t.namboodiris
  {
    var row := t.LookupInsert(nameEn, nameMl, fault).value;
    WithLookupValid(t, which, row);
  }

  lemma IllamInsertKeepsValid(t: Tables, data: Illam, fault: Option<Failure>)
    requires t.Valid()
    requires t.IllamInsert(data, fault).Ok?
    ensures var row := t.IllamInsert(data, fault).value;
      var t' := t.WithIllam(row);
      && t'.Valid()
      && row.id !in t.illams
      && |t'.illams| == |t.illams| + 1
      && (forall w :: t'.Lookups(w) == t.Lookups(w))
      && t'.namboodiris == t.namboodiris
  {
    var row := t.IllamInsert(data, fault).value;
    assert row.id > t.lastId;
  }

  lemma NamboodiriInsertKeepsValid(t: Tables, data: Namboodiri, fault: Option<Failure>)
    requires t.Valid()
    requires t.NamboodiriInsert(data, fault).Ok?
    ensures var row := t.NamboodiriInsert(data, fault).value;
      var t' := t.WithNamboodiri(row);
      && t'.Valid()
      && row.id !in t.namboodiris
      && |t'.namboodiris| == |t.namboodiris| + 1
      && (forall w :: t'.Lookups(w) == t.Lookups(w))
      && t'.illams == t.illams
  {
    var row := t.NamboodiriInsert(data, fault).value;
    assert row.id > t.lastId;
  }

  /** Prisma's check of a required `String` argument. */
  function StringArg(v: Value): (r: Result<string, Failure>)
    ensures r.Ok? <==> v.Str?
    ensures r.Ok? ==> r.value == v.s
  {
    if v.Str? then Ok(v.s) else Err(Failure("", "Invalid value for a String argument"))
  }

  /** Prisma's check of a required `Int` argument. */
  function IntArg(v: Value): (r: Result<int, Failure>)
    ensures r.Ok? <==> v.Number?
    ensures r.Ok? ==> r.value == v.n
  {
    if v.Number? then Ok(v.n) else Err(Failure("", "Invalid value for an Int argument"))
  }

  /** Prisma's check of an optional `String` argument: `null` and an
      absent value store `NULL`. */
  function OptionalStringArg(v: Value): (r: Result<Option<string>, Failure>)
    ensures r.Ok? <==> (v.Str? || v.Null? || v.Undefined?)
    ensures r.Ok? ==> (r.value.Some? <==> v.Str?) && (v.Str? ==> r.value.value == v.s)
  {
    match v
    case Str(s) => Ok(Some(s))
    case Null => Ok(None)
    case Undefined => Ok(None)
    case _ => Err(Failure("", "Invalid value for an optional String argument"))
  }

  /** The store as the handlers see it: six tables and the id counter,
      each insert one statement. */
  class Store {
    var gothrams: map<int, Lookup>
    var gramams: map<int, Lookup>
    var vedams: map<int, Lookup>
    var professions: map<int, Lookup>
    var illams: map<int, Illam>
    var namboodiris: map<int, Namboodiri>
    var lastId: int

    function Contents(): Tables
      reads this
    {
      Tables(gothrams, gramams, vedams, professions, illams, namboodiris, lastId)
    }

    ghost predicate Valid()
      reads this
    {
      Contents().Valid()
    }

    constructor ()
      ensures Valid() && Contents() == Empty
    {
      gothrams, gramams, vedams, professions := map[], map[], map[], map[];
      illams, namboodiris := map[], map[];
      lastId := 0;
    }

    /** `prisma.<table>.findUnique({ where: { id } })` */
    method FindLookup(which: Table, id: int) returns (r: Option<Lookup>)
      requires Valid()
      ensures r.Some? <==> id in Contents().Lookups(which)
      ensures r.Some? ==> r.value.id == id && r.value in Contents().Lookups(which).Values
    {
      var m := match which
        case GothramTable => gothrams
        case GramamTable => gramams
        case VedamTable => vedams
        case ProfessionTable => professions;
      r := if id in m then Some(m[id]) else None;
    }

    /** `prisma.<table>.create({ data: { nameEn, nameMl } })` */
    method CreateLookup(which: Table, nameEn: string, nameMl: string, fault: Option<Failure>)
      returns (r: Result<Lookup, Failure>)
      requires Valid()
      modifies this
      ensures Valid()
      ensures r == old(Contents()).LookupInsert(nameEn, nameMl, fault)
      ensures Contents() == if r.Ok? then old(Contents()).WithLookup(which, r.value) else old(Contents())
    {
      if fault.Some? {
        return Err(fault.value);
      }
      var row := Lookup(lastId + 1, nameEn, nameMl);
      LookupInsertKeepsValid(Contents(), which, nameEn, nameMl, fault);
      match which {
        case GothramTable => gothrams := gothrams[row.id := row];
        case GramamTable => gramams := gramams[row.id := row];
        case VedamTable => vedams := vedams[row.id := row];
        case ProfessionTable => professions := professions[row.id := row];
      }
      lastId := row.id;
      r := Ok(row);
    }

    /** `prisma.illam.create({ data })` */
    method CreateIllam(data: Illam, fault: Option<Failure>) returns (r: Result<Illam, Failure>)
      requires Valid()
      modifies this
      ensures Valid()
      ensures r == old(Contents()).IllamInsert(data, fault)
      ensures Contents() == if r.Ok? then old(Contents()).WithIllam(r.value) else old(Contents())
    {
      if !(data.gothramId in gothrams && data.gramamId in gramams && data.vedamId in vedams) {
        return Err(DanglingReference);
      }
      if fault.Some? {
        return Err(fault.value);
      }
      var row := data.(id := lastId + 1);
      IllamInsertKeepsValid(Contents(), data, fault);
      illams := illams[row.id := row];
      lastId := row.id;
      r := Ok(row);
    }

    /** `prisma.namboodiri.create({ data })` */
    method CreateNamboodiri(data: Namboodiri, fault: Option<Failure>) returns (r: Result<Namboodiri, Failure>)
      requires Valid()
      modifies this
      ensures Valid()
      ensures r == old(Contents()).NamboodiriInsert(data, fault)
      ensures Contents() == if r.Ok? then old(Contents()).WithNamboodiri(r.value) else old(Contents())
    {
      if !(data.gothramId in gothrams && data.illamId in illams && data.professionId in professions) {
        return Err(DanglingReference);
      }
      if fault.Some? {
        return Err(fault.value);
      }
      var row := data.(id := lastId + 1);
      NamboodiriInsertKeepsValid(Contents(), data, fault);
      namboodiris := namboodiris[row.id := row];
      lastId := row.id;
      r := Ok(row);
    }
  }
}
