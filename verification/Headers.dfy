/**
 The response header filter: fixed hop-by-hop and unsafe headers, and whatever the
 Connection header nominates (section 7.6.1 of RFC 9110), are not copied downstream.
 Canonical header names and trimming are library calls, taken as parameters.
 */
module Headers {
  import opened Common

  datatype HeaderLibrary = HeaderLibrary(canonical: string -> string, trim: string -> string)

  type Fields = map<string, seq<string>>

  /** Canonicalisation leaves "Connection" as it is. */
  ghost predicate HeaderLibraryOk(lib: HeaderLibrary) { lib.canonical("Connection") == "Connection" }

  /** The fixed part of the filter, as the code looks it up. */
  predicate Denylisted(name: string) {
    name in {"Alt-Svc", "Connection", "Keep-Alive", "Proxy-Authenticate", "Proxy-Authorization", "Te", "Trailer",
             "Transfer-Encoding", "Upgrade", "Content-Length", "Set-Cookie", "Server"}
  }

  function Values(fields: Fields, name: string): seq<string> {
    if name in fields then fields[name] else []
  }

  // ----- comma-separated tokens --------------------------------------------

  function FirstComma(s: string): (i: nat)
    ensures i <= |s| && ',' !in s[..i] && (i < |s| ==> s[i] == ',')
  {
    if s == "" || s[0] == ',' then 0 else
    var i := 1 + FirstComma(s[1..]);
    assert s[..i] == [s[0]] + s[1..][..i - 1];
    i
  }

  /** strings.Split(s, ","). */
  function Split(s: string): seq<string>
    decreases |s|
  {
    var i := FirstComma(s);
    if i == |s| then [s] else [s[..i]] + Split(s[i + 1..])
  }

  /** t is a maximal comma-free stretch of s, from position i to j. */
  ghost predicate StretchAt(s: string, t: string, i: int, j: int) {
    && 0 <= i <= j <= |s|
    && t == s[i..j]
    && ',' !in t
    && (i == 0 || s[i - 1] == ',')
    && (j == |s| || s[j] == ',')
  }

  ghost predicate IsToken(s: string, t: string) {
    exists i, j :: StretchAt(s, t, i, j)
  }

  /** Stretches after a comma are the stretches of what follows it, shifted. */
  lemma StretchAfterComma(s: string, n: nat, t: string, i: int, j: int)
    requires n < |s| && s[n] == ','
    ensures StretchAt(s[n + 1..], t, i, j) <==> i >= 0 && StretchAt(s, t, i + n + 1, j + n + 1)
  {
    var rest := s[n + 1..];
    if 0 <= i <= j <= |rest| {
      assert rest[i..j] == s[i + n + 1..j + n + 1];
    }
  }

  lemma {:induction false} PartsAreTokens(s: string, t: string)
    requires t in Split(s)
    ensures IsToken(s, t)
    decreases |s|
  {
    var n := FirstComma(s);
    if t == s[..n] {
      assert StretchAt(s, t, 0, n);
    } else {
      PartsAreTokens(s[n + 1..], t);
      var i, j :| StretchAt(s[n + 1..], t, i, j);
      StretchAfterComma(s, n, t, i, j);
    }
  }

  lemma {:induction false} TokensAreParts(s: string, t: string, i: nat, j: nat)
    requires StretchAt(s, t, i, j)
    ensures t in Split(s)
    decreases |s|
  {
    var n := FirstComma(s);
    if i == 0 {
      FirstStretch(s, j);
      assert s[..n] == t;
      assert Split(s)[0] == t;
    } else {
      CommaIsAfter(s, i - 1);
      var rest := s[n + 1..];
      StretchAfterComma(s, n, t, i - n - 1, j - n - 1);
      TokensAreParts(rest, t, i - n - 1, j - n - 1);
      assert Split(s) == [s[..n]] + Split(rest);
    }
  }

  lemma CommaIsAfter(s: string, k: nat)
    requires k < |s| && s[k] == ','
    ensures FirstComma(s) <= k
  {
    var n := FirstComma(s);
    assert forall m | 0 <= m < n :: s[m] == s[..n][m] && s[m] != ',';
  }

  lemma FirstStretch(s: string, j: nat)
    requires j <= |s| && ',' !in s[..j] && (j == |s| || s[j] == ',')
    ensures j == FirstComma(s)
  {
    var n := FirstComma(s);
    assert forall m | 0 <= m < n :: s[m] == s[..n][m] && s[m] != ',';
    assert forall m | 0 <= m < j :: s[m] == s[..j][m] && s[m] != ',';
  }

  /** Splitting yields exactly the stretches between commas. */
  lemma SplitFindsTokens(s: string, t: string)
    ensures t in Split(s) <==> IsToken(s, t)
  {
    if t in Split(s) {
      PartsAreTokens(s, t);
    }
    if IsToken(s, t) {
      var i, j :| StretchAt(s, t, i, j);
      TokensAreParts(s, t, i, j);
    }
  }

  // ----- nominated headers -------------------------------------------------

  /** Some Connection value has a token that names this header. */
  ghost predicate Nominates(lib: HeaderLibrary, value: string, name: string) {
    exists t :: IsToken(value, t) && lib.trim(t) != "" && lib.canonical(lib.trim(t)) == name
  }

  ghost predicate Nominated(lib: HeaderLibrary, fields: Fields, name: string) {
    exists v | v in Values(fields, "Connection") :: Nominates(lib, v, name)
  }

  method NominatedBy(lib: HeaderLibrary, value: string) returns (names: set<string>)
    ensures forall n :: n in names <==> Nominates(lib, value, n)
  {
    var tokens := Split(value);
    names := {};
    for i := 0 to |tokens|
      invariant forall n :: n in names <==>
                exists k | 0 <= k < i :: lib.trim(tokens[k]) != "" && lib.canonical(lib.trim(tokens[k])) == n
    {
      var name := lib.trim(tokens[i]);
      if name == "" {
        continue;
      }
      names := names + {lib.canonical(name)};
    }
    forall n ensures n in names <==> Nominates(lib, value, n) {
      if n in names {
        var k :| 0 <= k < |tokens| && lib.trim(tokens[k]) != "" && lib.canonical(lib.trim(tokens[k])) == n;
        SplitFindsTokens(value, tokens[k]);
      }
      if Nominates(lib, value, n) {
        var t :| IsToken(value, t) && lib.trim(t) != "" && lib.canonical(lib.trim(t)) == n;
        SplitFindsTokens(value, t);
      }
    }
  }

  method ConnectionNominatedHeaders(lib: HeaderLibrary, fields: Fields) returns (nominated: set<string>)
    requires HeaderLibraryOk(lib)
    ensures forall n :: n in nominated <==> Nominated(lib, fields, n)
  {
    var values := Values(fields, lib.canonical("Connection"));
    nominated := {};
    for i := 0 to |values|
      invariant forall n :: n in nominated <==> exists k | 0 <= k < i :: Nominates(lib, values[k], n)
    {
      var names := NominatedBy(lib, values[i]);
      nominated := nominated + names;
    }
  }

  // ----- copying -----------------------------------------------------------

  class Header {
    var fields: Fields

    constructor () ensures fields == map[] { fields := map[]; }

    method Add(lib: HeaderLibrary, name: string, value: string)
      modifies this
      ensures fields == old(fields)[lib.canonical(name) := Values(old(fields), lib.canonical(name)) + [value]]
    {
      var key := lib.canonical(name);
      fields := fields[key := Values(fields, key) + [value]];
    }
  }

  /** Appending values under a key; no values, no key. */
  function Append(fields: Fields, key: string, values: seq<string>): Fields {
    if values == [] then fields else fields[key := Values(fields, key) + values]
  }

  /** Connection management and framing, and what would let a backend set state, advertise
      itself or point elsewhere. */
  ghost predicate Forbidden(name: string) {
    || name == "Connection" || name == "Keep-Alive" || name == "Upgrade" || name == "Te"
    || name == "Proxy-Authenticate" || name == "Proxy-Authorization"
    || name == "Transfer-Encoding" || name == "Trailer" || name == "Content-Length"
    || name == "Set-Cookie" || name == "Server" || name == "Alt-Svc"
  }

  ghost predicate Skipped(lib: HeaderLibrary, src: Fields, key: string) {
    Forbidden(key) || Nominated(lib, src, key)
  }

  /** The destination after walking the source names in this order. */
  ghost function CopyAll(lib: HeaderLibrary, start: Fields, src: Fields, order: seq<string>): Fields
    requires Elements(order) <= src.Keys
  {
    if order == [] then start else
    var last := |order| - 1;
    assert order[last] in Elements(order) && Elements(order[..last]) <= Elements(order);
    var (name, before) := (order[last], CopyAll(lib, start, src, order[..last]));
    var key := lib.canonical(name);
    if Skipped(lib, src, key) then before else Append(before, key, src[name])
  }

  method AddAll(lib: HeaderLibrary, dst: Header, name: string, values: seq<string>)
    modifies dst
    ensures dst.fields == Append(old(dst.fields), lib.canonical(name), values)
  {
    for i := 0 to |values|
      invariant dst.fields == Append(old(dst.fields), lib.canonical(name), values[..i])
    {
      dst.Add(lib, name, values[i]);
      ghost var (key, was) := (lib.canonical(name), Values(old(dst.fields), lib.canonical(name)));
      assert was + values[..i] + [values[i]] == was + values[..i + 1];
      assert i == 0 ==> was + values[..i] == was;
      assert dst.fields == old(dst.fields)[key := was + values[..i + 1]];
    }
    assert values[..|values|] == values;
  }

  /** One source header: dropped, or its values added in order. */
  method CopyOne(lib: HeaderLibrary, dst: Header, src: Fields, nominated: set<string>, name: string)
    requires name in src && forall n :: n in nominated <==> Nominated(lib, src, n)
    modifies dst
    ensures dst.fields == if Skipped(lib, src, lib.canonical(name))
              then old(dst.fields)
              else Append(old(dst.fields), lib.canonical(name), src[name])
  {
    var canonicalName := lib.canonical(name);
    if !Denylisted(canonicalName) && canonicalName !in nominated {
      AddAll(lib, dst, name, src[name]);
    }
  }

  /** Nothing forbidden or nominated is ever added, whatever the source's names. */
  lemma {:induction false} SkippedNeverAdded(lib: HeaderLibrary, start: Fields, src: Fields, order: seq<string>,
                                             n: string)
    requires Elements(order) <= src.Keys && Skipped(lib, src, n)
    ensures Values(CopyAll(lib, start, src, order), n) == Values(start, n)
  {
    if order != [] {
      var last := |order| - 1;
      assert order[last] in Elements(order) && Elements(order[..last]) <= Elements(order);
      SkippedNeverAdded(lib, start, src, order[..last], n);
    }
  }

  /** Walks the source map in some order of its names; that order is all that is left
      open, and for canonical names it does not matter. */
  method CopyResponseHeaders(lib: HeaderLibrary, dst: Header, src: Fields) returns (ghost order: seq<string>)
    requires HeaderLibraryOk(lib)
    modifies dst
    ensures Distinct(order) && Elements(order) == src.Keys
    ensures dst.fields == CopyAll(lib, old(dst.fields), src, order)
    ensures Canonical(lib, src) ==> Merged(lib, old(dst.fields), src, src.Keys, dst.fields)
    ensures forall n | Forbidden(n) || Nominated(lib, src, n) :: Values(dst.fields, n) == Values(old(dst.fields), n)
  {
    var nominated := ConnectionNominatedHeaders(lib, src);
    var todo := src.Keys;
    order := [];
    while todo != {}
      invariant todo <= src.Keys && Elements(order) == src.Keys - todo && Distinct(order)
      invariant dst.fields == CopyAll(lib, old(dst.fields), src, order)
      decreases todo
    {
      var name :| name in todo;
      todo := todo - {name};
      assert name !in Elements(order);
      assert Elements(order + [name]) == Elements(order) + {name} && (order + [name])[..|order|] == order;
      order := order + [name];
      CopyOne(lib, dst, src, nominated, name);
    }
    if Canonical(lib, src) {
      CanonicalCopy(lib, old(dst.fields), src, order);
    }
    forall n | Forbidden(n) || Nominated(lib, src, n) ensures Values(dst.fields, n) == Values(old(dst.fields), n) {
      SkippedNeverAdded(lib, old(dst.fields), src, order, n);
    }
  }

  ghost predicate Copied(lib: HeaderLibrary, src: Fields, name: string) {
    name in src && !Skipped(lib, src, name)
  }

  /** Source names are already in canonical form. */
  ghost predicate Canonical(lib: HeaderLibrary, src: Fields) {
    forall n | n in src :: lib.canonical(n) == n
  }

  /** `after` is `before` with, for the copied names in `done`, the source values appended in order. */
  ghost predicate Merged(lib: HeaderLibrary, before: Fields, src: Fields, done: set<string>, after: Fields) {
    forall n :: MergedAt(lib, before, src, done, after, n)
  }

  ghost predicate MergedAt(lib: HeaderLibrary, before: Fields, src: Fields, done: set<string>, after: Fields,
                           n: string) {
    && Values(after, n) == Values(before, n) + (if n in done && Copied(lib, src, n) then src[n] else [])
    && (n in after <==> n in before || (n in done && Copied(lib, src, n) && src[n] != []))
  }

  /** With canonical names, exactly the entries neither denylisted nor nominated are added,
      each with its values in order, whatever the order of the walk. */
  lemma {:induction false} CanonicalCopy(lib: HeaderLibrary, start: Fields, src: Fields, order: seq<string>)
    requires Canonical(lib, src) && Distinct(order) && Elements(order) <= src.Keys
    ensures Merged(lib, start, src, Elements(order), CopyAll(lib, start, src, order))
  {
    if order == [] {
      forall n ensures MergedAt(lib, start, src, {}, start, n) {
        assert Values(start, n) + [] == Values(start, n);
      }
    } else {
      var last := |order| - 1;
      var name := order[last];
      assert name in Elements(order) && Elements(order) == Elements(order[..last]) + {name};
      CanonicalCopy(lib, start, src, order[..last]);
      MergeOne(lib, start, src, Elements(order[..last]), name, CopyAll(lib, start, src, order[..last]));
    }
  }

  lemma AppendEffect(fields: Fields, key: string, values: seq<string>, n: string)
    ensures Values(Append(fields, key, values), n) == Values(fields, n) + (if n == key then values else [])
    ensures n in Append(fields, key, values) <==> n in fields || (n == key && values != [])
  {
    assert Values(fields, n) + [] == Values(fields, n);
  }

  lemma MergeAt(lib: HeaderLibrary, start: Fields, src: Fields, done: set<string>, name: string, before: Fields,
                n: string)
    requires MergedAt(lib, start, src, done, before, n) && name in src && name !in done
    ensures MergedAt(lib, start, src, done + {name},
                     if Skipped(lib, src, name) then before else Append(before, name, src[name]), n)
  {
    AppendEffect(before, name, src[name], n);
    assert Values(start, n) + [] == Values(start, n);
  }

  lemma MergeOne(lib: HeaderLibrary, start: Fields, src: Fields, done: set<string>, name: string, before: Fields)
    requires Merged(lib, start, src, done, before) && name in src && name !in done
    ensures Merged(lib, start, src, done + {name},
                   if Skipped(lib, src, name) then before else Append(before, name, src[name]))
  {
    var after := if Skipped(lib, src, name) then before else Append(before, name, src[name]);
    forall n ensures MergedAt(lib, start, src, done + {name}, after, n) {
      MergeAt(lib, start, src, done, name, before, n);
    }
  }

  /** Into an empty destination, the result is the filtered source and nothing else. */
  lemma CopyIntoEmpty(lib: HeaderLibrary, src: Fields, after: Fields)
    requires Merged(lib, map[], src, src.Keys, after)
    ensures after == map n | n in src && Copied(lib, src, n) && src[n] != [] :: src[n]
  {
    forall n ensures n in after <==> Copied(lib, src, n) && src[n] != []
             ensures n in after ==> after[n] == src[n]
    {
      assert MergedAt(lib, map[], src, src.Keys, after, n);
    }
  }
}
