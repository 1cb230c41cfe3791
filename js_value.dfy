/**
 * The JavaScript values a route handler reads out of a parsed JSON request
 * body, and the few JavaScript operators the handlers apply to them:
 * truthiness (`!v`), `v || w`, `v.length > n` and `parseInt(v)`.
 */
module JsValue {
  import opened Options
  import opened JsString

  /** A property of a parsed body. `Undefined` is a property the body does
      not have; numbers are integers (fractions are not modelled). */
  datatype Value = Undefined | Null | Bool(b: bool) | Number(n: int) | Str(s: string)

  /** JavaScript truthiness: `!v` holds exactly when `Truthy(v)` does not. */
  predicate Truthy(v: Value) {
    match v
    case Undefined => false
    case Null => false
    case Bool(b) => b
    case Number(n) => n != 0
    case Str(s) => s != ""
  }

  /** `v || w`: the left operand when it is truthy, otherwise the right one. */
  function Or(v: Value, w: Value): Value {
    if Truthy(v) then v else w
  }

  /** `v.length > n`. Only strings have a length, counted in UTF-16 code
      units; for any other value `v.length` is `undefined` and the
      comparison is false. */
  predicate LongerThan(v: Value, n: nat) {
    v.Str? && Utf16Length(v.s) > n
  }

  /** The names of the fields whose value is falsy, in the order given:
      what a run of `if (!json.f) missingFields.push('f')` collects. */
  function FalsyNames(fields: seq<(string, Value)>): seq<string> {
    if fields == [] then []
    else if Truthy(fields[0].1) then FalsyNames(fields[1..])
    else [fields[0].0] + FalsyNames(fields[1..])
  }

  /** A name belongs to the collected list exactly when some field of that
      name is falsy, and the list is empty exactly when every field is truthy. */
  lemma {:induction false} FalsyNamesExact(fields: seq<(string, Value)>)
    ensures forall x :: x in FalsyNames(fields) <==>
      (exists i :: 0 <= i < |fields| && fields[i].0 == x && !Truthy(fields[i].1))
    ensures FalsyNames(fields) == [] <==> forall i :: 0 <= i < |fields| ==> Truthy(fields[i].1)
    ensures |FalsyNames(fields)| <= |fields|
  {
    if fields != [] {
      FalsyNamesExact(fields[1..]);
      forall x
        ensures x in FalsyNames(fields) <==>
          (exists i :: 0 <= i < |fields| && fields[i].0 == x && !Truthy(fields[i].1))
      {
        if x in FalsyNames(fields) && !(x in FalsyNames(fields[1..])) {
          assert fields[0].0 == x && !Truthy(fields[0].1);
        }
        if exists i :: 0 <= i < |fields| && fields[i].0 == x && !Truthy(fields[i].1) {
          var i :| 0 <= i < |fields| && fields[i].0 == x && !Truthy(fields[i].1);
          if i > 0 {
            assert fields[1..][i - 1] == fields[i];
          }
        }
      }
      if FalsyNames(fields) == [] {
        assert Truthy(fields[0].1);
        forall i | 0 <= i < |fields| ensures Truthy(fields[i].1) {
          if i > 0 { assert fields[1..][i - 1] == fields[i]; }
        }
      }
    }
  }

  /** Checking one more field appends its name when it is falsy: the
      effect of one `if (!json.f) missingFields.push('f')`. */
  lemma {:induction false} FalsyNamesPush(fields: seq<(string, Value)>, f: (string, Value))
    ensures FalsyNames(fields + [f]) == FalsyNames(fields) + (if Truthy(f.1) then [] else [f.0])
  {
    if fields != [] {
      assert (fields + [f])[1..] == fields[1..] + [f];
      FalsyNamesPush(fields[1..], f);
    } else {
      assert fields + [f] == [f];
    }
  }

  /** The names of the falsy fields keep the order of the fields: when field
      `i` and a later field `j` are both falsy, `i`'s name comes first. */
  lemma {:induction false} FalsyNamesOrdered(fields: seq<(string, Value)>, i: nat, j: nat)
    requires i < j < |fields|
    requires !Truthy(fields[i].1) && !Truthy(fields[j].1)
    requires forall a, b :: 0 <= a < b < |fields| ==> fields[a].0 != fields[b].0
    ensures exists p, q ::
      (0 <= p < q < |FalsyNames(fields)| &&
       FalsyNames(fields)[p] == fields[i].0 && FalsyNames(fields)[q] == fields[j].0)
  {
    var rest := fields[1..];
    if i == 0 {
      FalsyNamesExact(rest);
      assert rest[j - 1] == fields[j];
      assert fields[j].0 in FalsyNames(rest);
      var q :| 0 <= q < |FalsyNames(rest)| && FalsyNames(rest)[q] == fields[j].0;
      assert FalsyNames(fields)[q + 1] == fields[j].0;
      assert FalsyNames(fields)[0] == fields[i].0;
    } else {
      assert rest[i - 1] == fields[i] && rest[j - 1] == fields[j];
      FalsyNamesOrdered(rest, i - 1, j - 1);
      var p, q :| 0 <= p < q < |FalsyNames(rest)| &&
        FalsyNames(rest)[p] == fields[i].0 && FalsyNames(rest)[q] == fields[j].0;
      if Truthy(fields[0].1) {
        assert FalsyNames(fields) == FalsyNames(rest);
      } else {
        assert FalsyNames(fields)[p + 1] == fields[i].0;
        assert FalsyNames(fields)[q + 1] == fields[j].0;
      }
    }
  }

  /** `parseInt(v)` on an id field, restricted to the forms the clients send:
      a number is its own value and a string of decimal digits is read in
      base 10. Every other value parses to `NaN`, written `None`. */
  function ParseId(v: Value): Option<int> {
    match v
    case Number(n) => Some(n)
    case Str(s) => if s != "" && AllDigits(s) then Some(DecimalValue(s)) else None
    case _ => None
  }

  /** Parsing an id that was written out in decimal gives the id back. */
  lemma ParseIdOfDecimal(n: nat)
    ensures ParseId(Str(NatToString(n))) == Some(n)
  {
    NatToStringRoundTrip(n);
  }
}
