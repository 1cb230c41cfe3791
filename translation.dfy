/**
 * The language provider's `t(key)`: a dotted key such as
 * `"gothram.error.create"` is looked up segment by segment in the loaded
 * translation tree, and the key itself is the answer when no non-empty
 * entry is found.
 */
module Translation {
  import opened Options
  import opened JsString

  /** A translation file: nested objects whose leaves are strings. */
  datatype Node = Text(s: string) | Object(entries: map<string, Node>)

  datatype Language = En | Ml

  /** A value met during the walk is truthy: an object, or a non-empty
      string (a missing entry is `undefined`). */
  predicate Present(v: Option<Node>) {
    v.Some? && (v.value.Object? || v.value.s != "")
  }

  /** `value?.[k]`; indexing a string or a missing value gives `undefined`. */
  function Index(v: Option<Node>, k: string): Option<Node> {
    if v.Some? && v.value.Object? && k in v.value.entries then Some(v.value.entries[k]) else None
  }

  /** The loop of `t`: step down one segment at a time and stop at the
      first value that is not truthy. */
  function Walk(v: Option<Node>, path: seq<string>): Option<Node>
    decreases path
  {
    if path == [] then v
    else
      var next := Index(v, path[0]);
      if !Present(next) then next else Walk(next, path[1..])
  }

  /** The entry found at `path`, with no early stop: the reference the
      walk is measured against. */
  function At(v: Option<Node>, path: seq<string>): Option<Node>
    decreases path
  {
    if path == [] then v else At(Index(v, path[0]), path[1..])
  }

  /** `t(key)`: the entry at the key's dotted path when it is truthy, the
      key itself otherwise. */
  function Translate(tr: Node, key: string): (r: Node)
    ensures r == Text(key) || Present(Some(r))
  {
    var v := Walk(Some(tr), Split(key, '.'));
    if Present(v) then v.value else Text(key)
  }

  /** Walking down from something that is not truthy finds nothing. */
  lemma {:induction false} AtAbsent(v: Option<Node>, path: seq<string>)
    requires !Present(v)
    ensures !Present(At(v, path))
    decreases path
  {
    if path != [] {
      assert Index(v, path[0]) == None;
      AtAbsent(None, path[1..]);
    }
  }

  /** Stopping at the first value that is not truthy changes nothing: the
      walk finds a truthy entry exactly when there is one at the path, and
      then the same one. */
  lemma {:induction false} WalkFindsEntry(v: Option<Node>, path: seq<string>)
    ensures Present(Walk(v, path)) <==> Present(At(v, path))
    ensures Present(Walk(v, path)) ==> Walk(v, path) == At(v, path)
    decreases path
  {
    if path != [] {
      var next := Index(v, path[0]);
      if !Present(next) {
        AtAbsent(next, path[1..]);
      } else {
        WalkFindsEntry(next, path[1..]);
      }
    }
  }

  /** `t(key)` is the truthy entry at the key's path, or the key. */
  lemma TranslateIsEntryOrKey(tr: Node, key: string)
    ensures var e := At(Some(tr), Split(key, '.'));
      Translate(tr, key) == if Present(e) then e.value else Text(key)
  {
    WalkFindsEntry(Some(tr), Split(key, '.'));
  }

  /** Before a translation file is loaded, `t` echoes every key. */
  lemma EmptyTranslationsEchoKey(key: string)
    ensures Translate(Object(map[]), key) == Text(key)
  {
    SplitJoin(key, '.');
    var path := Split(key, '.');
    assert Index(Some(Object(map[])), path[0]) == None;
  }

  /** A tree holding just `leaf` under the segments of `path`. */
  function Nest(path: seq<string>, leaf: Node): Node {
    if path == [] then leaf else Object(map[path[0] := Nest(path[1..], leaf)])
  }

  lemma {:induction false} NestAt(path: seq<string>, leaf: Node)
    ensures At(Some(Nest(path, leaf)), path) == Some(leaf)
  {
    if path != [] {
      NestAt(path[1..], leaf);
    }
  }

  /** A non-empty string stored under segments without dots is what `t`
      gives for those segments joined with dots. */
  lemma NestedKeyFound(path: seq<string>, s: string)
    requires |path| >= 1 && s != ""
    requires forall i :: 0 <= i < |path| ==> '.' !in path[i]
    ensures Translate(Nest(path, Text(s)), Join(path, ".")) == Text(s)
  {
    JoinSplit(path, '.');
    NestAt(path, Text(s));
    TranslateIsEntryOrKey(Nest(path, Text(s)), Join(path, "."));
  }

  /** An entry holding the empty string counts as missing. */
  lemma EmptyEntryFallsBack(tr: Node, key: string)
    requires At(Some(tr), Split(key, '.')) == Some(Text(""))
    ensures Translate(tr, key) == Text(key)
  {
    TranslateIsEntryOrKey(tr, key);
  }

  /** The state of `LanguageProvider` that `t` reads. */
  class LanguageProvider {
    var language: Language
    var translations: Node

    /** The initial state: English, with no translations loaded yet. */
    constructor()
      ensures language == En && translations == Object(map[])
    {
      language := En;
      translations := Object(map[]);
    }

    /** `t(key)` */
    method T(key: string) returns (r: Node)
      ensures r == Translate(translations, key)
    {
      var keys := Split(key, '.');
      var value := Some(translations);
      var i := 0;
      while i < |keys|
        invariant 0 <= i <= |keys|
        invariant Walk(Some(translations), keys) == Walk(value, keys[i..])
      {
        assert keys[i..][1..] == keys[i + 1..];
        value := Index(value, keys[i]);
        i := i + 1;
        if !Present(value) {
          break;
        }
      }
      if Present(value) {
        r := value.value;
      } else {
        r := Text(key);
      }
    }
  }
}
