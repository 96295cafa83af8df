/**
  The string that is hashed into a Workflow's name for a category's environment variables
  (envToken, pkg/controller/certification_controller.go). Strings are sequences of bytes.
*/
module EnvToken {
  import opened Prelude

  datatype Variable = Variable(name: Bytes, value: Bytes)

  const ZERO: Byte := 48
  const COLON: Byte := 58
  const EQUALS: Byte := 61

  predicate IsDigit(b: Byte) { ZERO <= b < COLON }

  // ---- Decimal numbers ----

  function Decimal(n: nat): (d: Bytes)
    ensures |d| > 0 && forall i :: 0 <= i < |d| ==> IsDigit(d[i])
  {
    (if n < 10 then [] else Decimal(n / 10)) + [ZERO + (n % 10) as Byte]
  }

  function Value(d: Bytes): int
    requires forall i :: 0 <= i < |d| ==> IsDigit(d[i])
  {
    if d == [] then 0 else 10 * Value(d[..|d| - 1]) + (Last(d) as int - ZERO as int)
  }

  lemma {:induction false} DecimalRoundTrip(n: nat)
    ensures Value(Decimal(n)) == n
  {
    var d := Decimal(n);
    if n < 10 {
      assert d[..|d| - 1] == [];
    } else {
      DecimalRoundTrip(n / 10);
      assert d[..|d| - 1] == Decimal(n / 10);
    }
  }

  lemma FirstColon(d: Bytes, s: Bytes, l: Bytes)
    requires l == d + [COLON] + s && forall i :: 0 <= i < |d| ==> IsDigit(d[i])
    ensures |d| < |l| && l[|d|] == COLON && forall i :: 0 <= i < |d| ==> l[i] != COLON
  {
  }

  /** A length prefix ends at its colon, whatever follows it. */
  lemma PrefixParses(m: nat, n: nat, s: Bytes, t: Bytes)
    requires Decimal(m) + [COLON] + s == Decimal(n) + [COLON] + t
    ensures m == n && s == t
  {
    var d, e, l := Decimal(m), Decimal(n), Decimal(m) + [COLON] + s;
    FirstColon(d, s, l);
    FirstColon(e, t, l);
    assert |d| == |e|;
    assert d == l[..|d|] && e == l[..|e|];
    assert s == l[|d| + 1..] && t == l[|e| + 1..];
    DecimalRoundTrip(m);
    DecimalRoundTrip(n);
  }

  // ---- One variable ----

  function Prefixed(s: Bytes): Bytes { Decimal(|s|) + [COLON] + s }

  function Encode(v: Variable): Bytes { Prefixed(v.name) + [EQUALS] + Prefixed(v.value) }

  lemma PrefixedParses(a: Bytes, b: Bytes, s: Bytes, t: Bytes)
    requires Prefixed(a) + s == Prefixed(b) + t
    ensures a == b && s == t
  {
    assert Decimal(|a|) + [COLON] + (a + s) == Prefixed(a) + s;
    assert Decimal(|b|) + [COLON] + (b + t) == Prefixed(b) + t;
    PrefixParses(|a|, |b|, a + s, b + t);
    assert a == (a + s)[..|a|] && b == (b + t)[..|b|];
    assert s == (a + s)[|a|..] && t == (b + t)[|b|..];
  }

  /** An encoded variable ends where it ends, whatever bytes it and the rest are made of. */
  lemma EncodeParses(v: Variable, w: Variable, s: Bytes, t: Bytes)
    requires Encode(v) + s == Encode(w) + t
    ensures v == w && s == t
  {
    hide Prefixed;
    var sv, sw := Prefixed(v.value) + s, Prefixed(w.value) + t;
    assert Encode(v) + s == Prefixed(v.name) + ([EQUALS] + sv);
    assert Encode(w) + t == Prefixed(w.name) + ([EQUALS] + sw);
    PrefixedParses(v.name, w.name, [EQUALS] + sv, [EQUALS] + sw);
    assert sv == ([EQUALS] + sv)[1..] == ([EQUALS] + sw)[1..] == sw;
    PrefixedParses(v.value, w.value, s, t);
  }

  lemma EncodeInjective(v: Variable, w: Variable)
    requires Encode(v) == Encode(w)
    ensures v == w
  {
    hide Encode;
    assert Encode(v) + [] == Encode(w) + [];
    EncodeParses(v, w, [], []);
  }

  // ---- Many variables ----

  function Encodings(env: seq<Variable>): (pairs: seq<Bytes>)
    ensures |pairs| == |env|
    ensures forall i :: 0 <= i < |env| ==> pairs[i] == Encode(env[i])
  {
    if env == [] then [] else Encodings(env[..|env| - 1]) + [Encode(Last(env))]
  }

  ghost predicate IsEncoding(s: Bytes) { exists v :: s == Encode(v) }

  ghost predicate AreEncodings(pairs: seq<Bytes>) { forall i :: 0 <= i < |pairs| ==> IsEncoding(pairs[i]) }

  /** Concatenated encodings can be taken apart again in one way only. */
  lemma {:induction false} JoinParses(p: seq<Bytes>, q: seq<Bytes>)
    requires AreEncodings(p) && AreEncodings(q) && Flatten(p) == Flatten(q)
    ensures p == q
  {
    hide Encode;
    if p == [] || q == [] {
      NonEmptyJoin(p);
      NonEmptyJoin(q);
    } else {
      assert IsEncoding(p[0]) && IsEncoding(q[0]);
      var v, w :| p[0] == Encode(v) && q[0] == Encode(w);
      EncodeParses(v, w, Flatten(p[1..]), Flatten(q[1..]));
      JoinParses(p[1..], q[1..]);
    }
  }

  lemma NonEmptyJoin(p: seq<Bytes>)
    requires AreEncodings(p)
    ensures Flatten(p) == [] <==> p == []
  {
  }

  // ---- Sorting ----

  /** The byte order of sort.Strings. */
  predicate AtMost(a: Bytes, b: Bytes) {
    a == [] || (b != [] && (a[0] < b[0] || (a[0] == b[0] && AtMost(a[1..], b[1..]))))
  }

  lemma {:induction false} OrderIsTotal(a: Bytes, b: Bytes)
    ensures AtMost(a, b) || AtMost(b, a)
    ensures AtMost(a, b) && AtMost(b, a) ==> a == b
  {
    if a != [] && b != [] {
      OrderIsTotal(a[1..], b[1..]);
      if a[0] == b[0] && a[1..] == b[1..] {
        assert a == [a[0]] + a[1..] == [b[0]] + b[1..] == b;
      }
    }
  }

  lemma {:induction false} OrderIsTransitive(a: Bytes, b: Bytes, c: Bytes)
    requires AtMost(a, b) && AtMost(b, c)
    ensures AtMost(a, c)
  {
    if a != [] && a[0] == b[0] && b[0] == c[0] {
      OrderIsTransitive(a[1..], b[1..], c[1..]);
    }
  }

  ghost predicate IsSorted(s: seq<Bytes>) { forall i, j :: 0 <= i < j < |s| ==> AtMost(s[i], s[j]) }

  ghost predicate SortOf(sorted: seq<Bytes>, s: seq<Bytes>) { IsSorted(sorted) && multiset(sorted) == multiset(s) }

  lemma HeadIsLeast(p: seq<Bytes>, x: Bytes)
    requires IsSorted(p) && x in multiset(p)
    ensures |p| > 0 && (x == p[0] || AtMost(p[0], x))
  {
  }

  lemma TailMultiset(p: seq<Bytes>)
    requires p != []
    ensures multiset(p[1..]) == multiset(p) - multiset{p[0]}
    ensures p[0] in multiset(p) && |multiset(p)| == |p|
  {
    assert p == [p[0]] + p[1..];
  }

  /** A sorted list is determined by its members. */
  lemma {:induction false} SortedIsUnique(p: seq<Bytes>, q: seq<Bytes>)
    requires IsSorted(p) && IsSorted(q) && multiset(p) == multiset(q)
    ensures p == q
  {
    if p != [] {
      TailMultiset(p);
      hide AtMost;
      HeadIsLeast(q, p[0]);
      TailMultiset(q);
      HeadIsLeast(p, q[0]);
      OrderIsTotal(p[0], q[0]);
      SortedIsUnique(p[1..], q[1..]);
      assert p == [p[0]] + p[1..] && q == [q[0]] + q[1..];
    } else if q != [] {
      TailMultiset(q);
    }
  }

  function Insert(x: Bytes, sorted: seq<Bytes>): seq<Bytes> {
    if sorted == [] || AtMost(x, sorted[0]) then [x] + sorted else [sorted[0]] + Insert(x, sorted[1..])
  }

  lemma {:induction false} InsertSorts(x: Bytes, sorted: seq<Bytes>)
    requires IsSorted(sorted)
    ensures SortOf(Insert(x, sorted), [x] + sorted)
  {
    hide AtMost;
    if sorted == [] {
    } else if AtMost(x, sorted[0]) {
      forall j | 0 <= j < |sorted| ensures AtMost(x, sorted[j]) {
        if j > 0 { OrderIsTransitive(x, sorted[0], sorted[j]); }
      }
    } else {
      OrderIsTotal(x, sorted[0]);
      InsertSorts(x, sorted[1..]);
      var rest := Insert(x, sorted[1..]);
      forall j | 0 <= j < |rest| ensures AtMost(sorted[0], rest[j]) {
        MemberOf(rest, [x] + sorted[1..], j);
        if rest[j] != x {
          var i :| 0 <= i < |sorted[1..]| && sorted[1..][i] == rest[j];
          assert sorted[i + 1] == rest[j];
        }
      }
      assert sorted == [sorted[0]] + sorted[1..];
      assert multiset([sorted[0]] + rest) == multiset([x] + sorted);
    }
  }

  lemma MemberOf(s: seq<Bytes>, t: seq<Bytes>, j: nat)
    requires multiset(s) == multiset(t) && j < |s|
    ensures s[j] in t
  {
    assert s[j] in multiset(s);
  }

  // ---- The string that is hashed ----

  method EncodeAll(env: seq<Variable>) returns (pairs: seq<Bytes>)
    ensures pairs == Encodings(env)
  {
    hide Encode;
    pairs := [];
    for i := 0 to |env|
      invariant pairs == Encodings(env[..i])
    {
      assert env[..i + 1][..i] == env[..i];
      pairs := pairs + [Encode(env[i])];
    }
    assert env[..|env|] == env;
  }

  /** sort.Strings. */
  method SortStrings(s: seq<Bytes>) returns (sorted: seq<Bytes>)
    ensures SortOf(sorted, s)
  {
    hide AtMost, Insert;
    sorted := [];
    for i := 0 to |s|
      invariant SortOf(sorted, s[..i])
    {
      InsertSorts(s[i], sorted);
      sorted := Insert(s[i], sorted);
      assert s[..i + 1] == s[..i] + [s[i]];
    }
    assert s[..|s|] == s;
  }

  method Join(parts: seq<Bytes>) returns (joined: Bytes)
    ensures joined == Flatten(parts)
  {
    joined := [];
    for i := 0 to |parts|
      invariant joined == Flatten(parts[..i])
    {
      assert parts[..i + 1] == parts[..i] + [parts[i]];
      FlattenSnoc(parts[..i], parts[i]);
      joined := joined + parts[i];
    }
    assert parts[..|parts|] == parts;
  }

  /** envToken up to the hash. */
  method PreImage(env: seq<Variable>) returns (pre: Bytes)
    ensures exists sorted :: SortOf(sorted, Encodings(env)) && pre == Flatten(sorted)
  {
    var pairs := EncodeAll(env);
    var sorted := SortStrings(pairs);
    pre := Join(sorted);
  }

  /** Encoding keeps every multiplicity. */
  lemma {:induction false} EncodingsCount(env: seq<Variable>, v: Variable)
    ensures multiset(Encodings(env))[Encode(v)] == multiset(env)[v]
  {
    hide Encode;
    if env != [] {
      var init, last := env[..|env| - 1], Last(env);
      EncodingsCount(init, v);
      assert env == init + [last];
      if Encode(last) == Encode(v) {
        EncodeInjective(last, v);
      }
    }
  }

  lemma {:induction false} EncodingsMembers(env: seq<Variable>, s: Bytes)
    ensures s in multiset(Encodings(env)) ==> IsEncoding(s)
  {
  }

  /** The encodings are the same multiset exactly when the variables are. */
  lemma EncodingsSameIff(a: seq<Variable>, b: seq<Variable>)
    ensures multiset(Encodings(a)) == multiset(Encodings(b)) <==> multiset(a) == multiset(b)
  {
    hide Encode;
    var p, q := multiset(Encodings(a)), multiset(Encodings(b));
    forall v: Variable ensures p[Encode(v)] == multiset(a)[v] && q[Encode(v)] == multiset(b)[v] {
      EncodingsCount(a, v);
      EncodingsCount(b, v);
    }
    if multiset(a) == multiset(b) {
      forall s: Bytes ensures p[s] == q[s] {
        EncodingsMembers(a, s);
        EncodingsMembers(b, s);
        if IsEncoding(s) {
          var v :| s == Encode(v);
        }
      }
    } else if p == q {
      forall v: Variable ensures multiset(a)[v] == multiset(b)[v] { assert p[Encode(v)] == q[Encode(v)]; }
    }
  }

  lemma SortedEncodings(env: seq<Variable>, sorted: seq<Bytes>)
    requires SortOf(sorted, Encodings(env))
    ensures AreEncodings(sorted)
  {
    forall i | 0 <= i < |sorted| ensures IsEncoding(sorted[i]) {
      assert sorted[i] in multiset(sorted);
      EncodingsMembers(env, sorted[i]);
    }
  }

  /**
    Two environments hash the same string if and only if they hold the same variables, each the
    same number of times, in whatever order and whatever bytes their names and values contain.
  */
  lemma PreImageIsInjective(a: seq<Variable>, b: seq<Variable>, p: seq<Bytes>, q: seq<Bytes>)
    requires SortOf(p, Encodings(a)) && SortOf(q, Encodings(b))
    ensures Flatten(p) == Flatten(q) <==> multiset(a) == multiset(b)
  {
    EncodingsSameIff(a, b);
    if Flatten(p) == Flatten(q) {
      SortedEncodings(a, p);
      SortedEncodings(b, q);
      JoinParses(p, q);
    } else if multiset(a) == multiset(b) {
      SortedIsUnique(p, q);
    }
  }
}
