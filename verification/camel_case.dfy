/**
 The key-spelling transform of `ScriptModule`: Python's snake_case keyword
 names become the protocol's camelCase names (`await_promise` to
 `awaitPromise`), and the keys of a `serializationOptions` object are
 converted the same way, one level deep.
 */
module CamelCase {
  import opened Wrappers
  import opened Json

  predicate IsUpper(c: char) { 'A' <= c <= 'Z' }

  predicate IsLower(c: char) { 'a' <= c <= 'z' }

  function ToUpper(c: char): char
  {
    if IsLower(c) then (c as int - 32) as char else c
  }

  function ToLower(c: char): char
  {
    if IsUpper(c) then (c as int + 32) as char else c
  }

  /**
   Python's `str.title()` continued from a state in which the previous
   character was (or was not) cased: a cased character after a cased one is
   lowered, any other cased character is raised, and an uncased character
   resets the state.
   */
  function TitleFrom(x: string, prevCased: bool): (r: string)
    ensures |r| == |x|
    ensures forall i :: 0 <= i < |x| ==> ToLower(r[i]) == ToLower(x[i])
    decreases |x|
  {
    if x == [] then []
    else
      var c := x[0];
      var cased := IsUpper(c) || IsLower(c);
      [if !cased then c else if prevCased then ToLower(c) else ToUpper(c)] + TitleFrom(x[1..], cased)
  }

  /** `x.title()`. */
  function Title(x: string): string
  {
    TitleFrom(x, false)
  }

  /** Joins parts with `_` between them: the inverse of `Split`. */
  function Join(parts: seq<string>): string
    requires |parts| >= 1
    decreases |parts|
  {
    if |parts| == 1 then parts[0] else parts[0] + "_" + Join(parts[1..])
  }

  /** `s.split('_')`: the maximal `_`-free pieces, including empty ones. */
  function Split(s: string): (r: seq<string>)
    ensures |r| >= 1
    ensures forall i :: 0 <= i < |r| ==> '_' !in r[i]
    ensures forall i, c :: 0 <= i < |r| && c in r[i] ==> c in s
    ensures Join(r) == s
    ensures '_' !in s ==> r == [s]
    decreases |s|
  {
    if s == [] then [""]
    else
      var rest := Split(s[1..]);
      assert s == [s[0]] + s[1..];
      if s[0] == '_' then
        [""] + rest
      else
        var r := [[s[0]] + rest[0]] + rest[1..];
        assert r[1..] == rest[1..];
        assert |rest| > 1 ==> Join(rest) == rest[0] + "_" + Join(rest[1..]);
        r
  }

  /** The title-cased parts, concatenated. */
  function TitleJoin(parts: seq<string>): (r: string)
    ensures (forall i :: 0 <= i < |parts| ==> '_' !in parts[i]) ==> '_' !in r
    decreases |parts|
  {
    if parts == [] then ""
    else
      var t := Title(parts[0]);
      assert forall i :: 0 <= i < |t| ==> ToLower(t[i]) == ToLower(parts[0][i]);
      t + TitleJoin(parts[1..])
  }

  /** `_to_camel_case`: the first piece verbatim, the others title-cased, no separators. */
  function ToCamelCase(s: string): (r: string)
    ensures '_' !in r
    ensures '_' !in s ==> r == s
  {
    var parts := Split(s);
    assert '_' !in parts[0];
    parts[0] + TitleJoin(parts[1..])
  }

  /** A Python snake_case name: lower-case letters, each `_` followed by a letter. */
  predicate SnakeName(s: string)
  {
    && LowerOrUnderscore(s)
    && (s != [] ==> s[|s| - 1] != '_')
    && forall i :: 0 <= i < |s| - 1 && s[i] == '_' ==> s[i + 1] != '_'
  }

  lemma SnakeAt(s: string, i: int)
    requires SnakeName(s) && 0 <= i < |s|
    ensures IsLower(s[i]) || (s[i] == '_' && i + 1 < |s| && IsLower(s[i + 1]))
  {
    if s[i] == '_' {
      assert i != |s| - 1;
      assert s[i + 1] != '_';
    }
  }

  /** Only lower-case letters and underscores. */
  predicate LowerOrUnderscore(s: string)
  {
    forall i :: 0 <= i < |s| ==> IsLower(s[i]) || s[i] == '_'
  }

  /**
   An independent, character-wise reading of the camel-case rule on
   lower-case input: drop each `_` and raise the character right after one.
   */
  function CamelFrom(s: string, afterUnderscore: bool): string
    decreases |s|
  {
    if s == [] then []
    else if s[0] == '_' then CamelFrom(s[1..], true)
    else [if afterUnderscore then ToUpper(s[0]) else s[0]] + CamelFrom(s[1..], false)
  }

  /** The spelling back: `_` plus the lower-case letter for each capital. */
  function ToSnakeCase(s: string): string
    decreases |s|
  {
    if s == [] then []
    else if IsUpper(s[0]) then "_" + [ToLower(s[0])] + ToSnakeCase(s[1..])
    else [s[0]] + ToSnakeCase(s[1..])
  }

  /** Title-casing a word of lower-case letters raises its first letter only. */
  lemma {:induction false} TitleLowerWord(x: string)
    requires x != [] && forall i :: 0 <= i < |x| ==> IsLower(x[i])
    ensures Title(x) == [ToUpper(x[0])] + x[1..]
  {
    TitleFromLower(x[1..]);
  }

  lemma {:induction false} TitleFromLower(x: string)
    requires forall i :: 0 <= i < |x| ==> IsLower(x[i])
    ensures TitleFrom(x, true) == x
    decreases |x|
  {
    if x != [] {
      TitleFromLower(x[1..]);
    }
  }

  /** `_to_camel_case` from a state: the first piece is title-cased too when `u` holds. */
  function CamelOfPieces(t: string, u: bool): string
  {
    var parts := Split(t);
    (if u then Title(parts[0]) else parts[0]) + TitleJoin(parts[1..])
  }

  /** The split-and-title definition and the character-wise rule agree from any state. */
  lemma {:induction false} CamelPieces(t: string, u: bool)
    requires LowerOrUnderscore(t)
    ensures CamelOfPieces(t, u) == CamelFrom(t, u)
    decreases |t|
  {
    if t != [] {
      assert LowerOrUnderscore(t[1..]) by {
        forall i | 0 <= i < |t[1..]| ensures IsLower(t[1..][i]) || t[1..][i] == '_' {
          assert t[1..][i] == t[i + 1];
        }
      }
      if t[0] == '_' {
        CamelPieces(t[1..], true);
        CamelPiecesUnderscore(t, u);
      } else {
        CamelPieces(t[1..], false);
        CamelPiecesLetter(t, u);
      }
    }
  }

  lemma CamelPiecesUnderscore(t: string, u: bool)
    requires t != [] && t[0] == '_'
    requires CamelOfPieces(t[1..], true) == CamelFrom(t[1..], true)
    ensures CamelOfPieces(t, u) == CamelFrom(t, u)
  {
    var rest := Split(t[1..]);
    assert Split(t) == [""] + rest;
    assert Split(t)[1..] == rest;
    assert TitleJoin(rest) == Title(rest[0]) + TitleJoin(rest[1..]);
  }

  lemma CamelPiecesLetter(t: string, u: bool)
    requires t != [] && t[0] != '_' && LowerOrUnderscore(t)
    requires CamelOfPieces(t[1..], false) == CamelFrom(t[1..], false)
    ensures CamelOfPieces(t, u) == CamelFrom(t, u)
  {
    var rest := Split(t[1..]);
    var p0 := [t[0]] + rest[0];
    SplitLetter(t);
    LowerHeadPiece(t);
    TitleHead(p0, u);
    var c := if u then ToUpper(t[0]) else t[0];
    assert p0[0] == t[0] && p0[1..] == rest[0];
    var head := if u then Title(p0) else p0;
    assert head == [c] + rest[0];
    assert CamelOfPieces(t, u) == head + TitleJoin(rest[1..]);
    assert CamelFrom(t, u) == [c] + CamelFrom(t[1..], false);
    assert CamelOfPieces(t[1..], false) == rest[0] + TitleJoin(rest[1..]);
    var tail := TitleJoin(rest[1..]);
    var w := rest[0];
    ConsAssoc(c, w, tail);
  }

  lemma ConsAssoc(c: char, w: string, tail: string)
    ensures ([c] + w) + tail == [c] + (w + tail)
  {
  }

  /** A piece starting with a letter extends the first piece of the rest. */
  lemma SplitLetter(t: string)
    requires t != [] && t[0] != '_'
    ensures Split(t)[0] == [t[0]] + Split(t[1..])[0]
    ensures Split(t)[1..] == Split(t[1..])[1..]
  {
  }

  /** On lower-case input, the first piece is a non-empty lower-case word when it starts with a letter. */
  lemma LowerHeadPiece(t: string)
    requires t != [] && t[0] != '_' && LowerOrUnderscore(t)
    ensures var p0 := [t[0]] + Split(t[1..])[0];
            forall i :: 0 <= i < |p0| ==> IsLower(p0[i])
  {
    var rest := Split(t[1..]);
    var p0 := [t[0]] + rest[0];
    forall i | 0 <= i < |p0| ensures IsLower(p0[i]) {
      if i > 0 {
        assert p0[i] in rest[0];
        assert p0[i] in t[1..];
      }
    }
  }

  /** The first piece, title-cased or not, of a lower-case word. */
  lemma TitleHead(x: string, u: bool)
    requires x != [] && forall i :: 0 <= i < |x| ==> IsLower(x[i])
    ensures (if u then Title(x) else x) == [if u then ToUpper(x[0]) else x[0]] + x[1..]
  {
    if u {
      TitleLowerWord(x);
    }
  }

  /**
   On lower-case input, `_to_camel_case` keeps the first piece verbatim and
   title-cases the rest: each `_` disappears and the letter after it is raised.
   */
  lemma CamelCaseCharacterwise(s: string)
    requires LowerOrUnderscore(s)
    ensures ToCamelCase(s) == CamelFrom(s, false)
  {
    CamelPieces(s, false);
  }

  lemma {:induction false} SnakeOfCamelFrom(t: string, u: bool)
    requires SnakeName(t)
    requires u ==> t != [] && IsLower(t[0])
    ensures ToSnakeCase(CamelFrom(t, u)) == (if u then "_" else "") + t
    decreases |t|
  {
    if t != [] {
      assert SnakeName(t[1..]) by {
        forall i | 0 <= i < |t[1..]|
          ensures IsLower(t[1..][i]) || (t[1..][i] == '_' && i + 1 < |t[1..]| && IsLower(t[1..][i + 1]))
        {
          assert t[1..][i] == t[i + 1];
          SnakeAt(t, i + 1);
          if i + 1 < |t[1..]| {
            assert t[1..][i + 1] == t[i + 2];
          }
        }
      }
      if t[0] == '_' {
        assert IsLower(t[1]) && t[1..][0] == t[1];
        SnakeOfCamelFrom(t[1..], true);
        assert "_" + t[1..] == t;
      } else {
        SnakeOfCamelFrom(t[1..], false);
        var c := if u then ToUpper(t[0]) else t[0];
        var rest := CamelFrom(t[1..], false);
        assert CamelFrom(t, u) == [c] + rest;
        assert ([c] + rest)[1..] == rest;
        assert IsLower(t[0]);
        if u {
          assert IsUpper(c) && ToLower(c) == t[0];
          assert ToSnakeCase([c] + rest) == "_" + [t[0]] + ToSnakeCase(rest);
        } else {
          assert ToSnakeCase([c] + rest) == [t[0]] + ToSnakeCase(rest);
        }
        assert t == [t[0]] + t[1..];
      }
    }
  }

  /** The transform is reversible on snake_case names: spelling the result back gives the name. */
  lemma CamelCaseRoundTrip(s: string)
    requires SnakeName(s)
    ensures ToSnakeCase(ToCamelCase(s)) == s
  {
    CamelCaseCharacterwise(s);
    SnakeOfCamelFrom(s, false);
  }

  /** No later field's key converts to the same name as field `j`'s: `j` is the one that sticks. */
  predicate LastOfItsName(fields: seq<(string, Json)>, j: int)
    requires 0 <= j < |fields|
  {
    forall j' :: j < j' < |fields| ==> ToCamelCase(fields[j'].0) != ToCamelCase(fields[j].0)
  }

  lemma LastOfItsNamePrefix(fields: seq<(string, Json)>, j: int)
    requires 0 <= j < |fields| - 1 && LastOfItsName(fields, j)
    ensures LastOfItsName(fields[..|fields| - 1], j)
  {
    var n := |fields| - 1;
    forall j' | j < j' < n ensures ToCamelCase(fields[..n][j'].0) != ToCamelCase(fields[..n][j].0) {
      assert fields[..n][j'] == fields[j'];
      assert fields[..n][j] == fields[j];
    }
  }

  /** The names `_to_camel_case` gives the keys of a field list. */
  function CamelKeys(fields: seq<(string, Json)>): set<string>
  {
    set i | 0 <= i < |fields| :: ToCamelCase(fields[i].0)
  }

  /**
   `_convert_serialization_options`: a new dict with each top-level key
   converted and its value kept as is, written in the original order (so a
   later key that converts to an existing name overwrites that value in place).
   */
  function ConvertSerializationOptions(opts: seq<(string, Json)>): (r: seq<(string, Json)>)
    ensures UniqueKeys(r)
    ensures Keys(r) == CamelKeys(opts)
    decreases |opts|
  {
    if opts == [] then []
    else
      var n := |opts| - 1;
      var prev := ConvertSerializationOptions(opts[..n]);
      var k := ToCamelCase(opts[n].0);
      PutUnique(prev, k, opts[n].1);
      CamelKeysSnoc(opts);
      Put(prev, k, opts[n].1)
  }

  lemma CamelKeysSnoc(opts: seq<(string, Json)>)
    requires opts != []
    ensures CamelKeys(opts) == CamelKeys(opts[..|opts| - 1]) + {ToCamelCase(opts[|opts| - 1].0)}
  {
    var n := |opts| - 1;
    assert forall i :: 0 <= i < n ==> opts[..n][i] == opts[i];
  }

  /**
   Values are carried over untouched: the converted name of each key holds
   the value of the last key that converts to it.
   */
  lemma {:induction false} ConvertKeepsValues(opts: seq<(string, Json)>, j: int)
    requires 0 <= j < |opts| && LastOfItsName(opts, j)
    ensures Get(ConvertSerializationOptions(opts), ToCamelCase(opts[j].0)) == Some(opts[j].1)
    decreases |opts|
  {
    var n := |opts| - 1;
    if j == n {
      ConvertLast(opts);
    } else {
      var init := opts[..n];
      assert init[j] == opts[j];
      LastOfItsNamePrefix(opts, j);
      ConvertKeepsValues(init, j);
      ConvertOther(opts, ToCamelCase(opts[j].0), opts[j].1);
    }
  }

  /** The last key is written on top of the conversion of the others. */
  lemma ConvertSnoc(opts: seq<(string, Json)>)
    requires opts != []
    ensures ConvertSerializationOptions(opts)
         == Put(ConvertSerializationOptions(opts[..|opts| - 1]), ToCamelCase(opts[|opts| - 1].0), opts[|opts| - 1].1)
  {
  }

  /** The last key's converted name holds the last key's value. */
  lemma ConvertLast(opts: seq<(string, Json)>)
    requires opts != []
    ensures Get(ConvertSerializationOptions(opts), ToCamelCase(opts[|opts| - 1].0)) == Some(opts[|opts| - 1].1)
  {
    var n := |opts| - 1;
    ConvertSnoc(opts);
    PutGet(ConvertSerializationOptions(opts[..n]), ToCamelCase(opts[n].0), opts[n].1, ToCamelCase(opts[n].0));
  }

  /** A name the last key does not convert to reads as in the conversion of the others. */
  lemma ConvertOther(opts: seq<(string, Json)>, k: string, v: Json)
    requires opts != [] && k != ToCamelCase(opts[|opts| - 1].0)
    requires Get(ConvertSerializationOptions(opts[..|opts| - 1]), k) == Some(v)
    ensures Get(ConvertSerializationOptions(opts), k) == Some(v)
  {
    var n := |opts| - 1;
    ConvertSnoc(opts);
    PutGet(ConvertSerializationOptions(opts[..n]), ToCamelCase(opts[n].0), opts[n].1, k);
  }

  /** No two keys convert to the same name. */
  predicate DistinctNames(opts: seq<(string, Json)>)
  {
    forall i, j :: 0 <= i < j < |opts| ==> ToCamelCase(opts[i].0) != ToCamelCase(opts[j].0)
  }

  /** The fields with their keys converted, position by position. */
  predicate RenamedFrom(r: seq<(string, Json)>, opts: seq<(string, Json)>)
  {
    |r| == |opts| && forall i :: 0 <= i < |opts| ==> r[i] == (ToCamelCase(opts[i].0), opts[i].1)
  }

  /** When no two keys convert to the same name, the result is the input renamed key by key, in order. */
  lemma {:induction false} ConvertRenamesInOrder(opts: seq<(string, Json)>)
    requires DistinctNames(opts)
    ensures RenamedFrom(ConvertSerializationOptions(opts), opts)
    decreases |opts|
  {
    if opts != [] {
      var n := |opts| - 1;
      var init := opts[..n];
      assert DistinctNames(init) by {
        forall i, j | 0 <= i < j < n ensures ToCamelCase(init[i].0) != ToCamelCase(init[j].0) {
          assert init[i] == opts[i] && init[j] == opts[j];
        }
      }
      ConvertRenamesInOrder(init);
      var prev := ConvertSerializationOptions(init);
      RenamedFresh(prev, opts);
      ConvertSnoc(opts);
      RenamedSnoc(prev, opts);
    }
  }

  /** A fresh name: the last key converts to none of the names already renamed. */
  lemma RenamedFresh(prev: seq<(string, Json)>, opts: seq<(string, Json)>)
    requires opts != [] && DistinctNames(opts) && RenamedFrom(prev, opts[..|opts| - 1])
    ensures ToCamelCase(opts[|opts| - 1].0) !in Keys(prev)
  {
    var n := |opts| - 1;
    forall i | 0 <= i < n ensures prev[i].0 != ToCamelCase(opts[n].0) {
      assert prev[i].0 == ToCamelCase(opts[..n][i].0);
      assert opts[..n][i] == opts[i];
    }
  }

  /** Renaming extends field by field. */
  lemma RenamedSnoc(prev: seq<(string, Json)>, opts: seq<(string, Json)>)
    requires opts != [] && RenamedFrom(prev, opts[..|opts| - 1])
    ensures RenamedFrom(prev + [(ToCamelCase(opts[|opts| - 1].0), opts[|opts| - 1].1)], opts)
  {
    var n := |opts| - 1;
    forall i | 0 <= i < n ensures prev[i] == (ToCamelCase(opts[i].0), opts[i].1) {
      assert opts[..n][i] == opts[i];
    }
  }
}
