/** Canonical JSON, the normal form behind request fingerprints: `canonicalize_json` in
    `crates/core/src/idempotency.rs` and its twin in `apps/web/lib/cryptographic-signatures.ts`. */
module CanonicalJson {
  import opened Wrappers
  import opened Sets

  /** A JSON value as parsed: an object keeps its members in the order they were written. */
  datatype Json =
    | Null
    | Bool(bool)
    | Number(literal: string)
    | String(text: string)
    | Array(items: seq<Json>)
    | Object(members: seq<Member>)

  datatype Member = Member(key: string, value: Json)

  // ---- The order of keys ----

  predicate Less(s: string, t: string) {
    t != [] && (s == [] || s[0] < t[0] || (s[0] == t[0] && Less(s[1..], t[1..])))
  }

  lemma {:induction false} LessTrichotomy(s: string, t: string)
    ensures Less(s, t) || s == t || Less(t, s)
    ensures !(Less(s, t) && Less(t, s)) && !Less(s, s)
  {
    if s != [] { LessTrichotomy(s[1..], s[1..]); }
    if s != [] && t != [] {
      LessTrichotomy(s[1..], t[1..]);
      if s[0] == t[0] && s[1..] == t[1..] { assert s == [s[0]] + s[1..] == [t[0]] + t[1..] == t; }
    }
  }

  lemma {:induction false} LessTransitive(s: string, t: string, u: string)
    requires Less(s, t) && Less(t, u)
    ensures Less(s, u)
  {
    if s != [] && s[0] == t[0] && t[0] == u[0] { LessTransitive(s[1..], t[1..], u[1..]); }
  }

  /** Lexicographic order: the first difference decides, and a prefix comes first. */
  lemma {:induction false} LessIs(s: string, t: string, n: nat)
    requires n <= |s| && n <= |t| && s[..n] == t[..n] && (n == |s| || n == |t| || s[n] != t[n])
    ensures Less(s, t) <==> n < |t| && (n == |s| || s[n] < t[n])
  {
    if n > 0 {
      assert s[0] == s[..n][0] == t[..n][0] == t[0];
      assert s[1..][..n - 1] == s[..n][1..] == t[..n][1..] == t[1..][..n - 1];
      LessIs(s[1..], t[1..], n - 1);
    }
  }

  // ---- Canonicalization ----

  ghost predicate Ascending(ms: seq<Member>) {
    forall i, j :: 0 <= i < j < |ms| ==> Less(ms[i].key, ms[j].key)
  }

  ghost predicate DistinctKeys(ms: seq<Member>) {
    forall i, j :: 0 <= i < j < |ms| ==> ms[i].key != ms[j].key
  }

  /** Insertion into a map ordered by key. */
  function Insert(m: Member, ms: seq<Member>): seq<Member> {
    if ms == [] then [m]
    else if Less(m.key, ms[0].key) then [m] + ms
    else if m.key == ms[0].key then [m] + ms[1..]
    else [ms[0]] + Insert(m, ms[1..])
  }

  function SortByKey(ms: seq<Member>): seq<Member> {
    if ms == [] then [] else Insert(ms[|ms| - 1], SortByKey(ms[..|ms| - 1]))
  }

  function Canonical(value: Json): Json {
    match value
    case Object(ms) =>
      Object(SortByKey(seq(|ms|, i requires 0 <= i < |ms| => Member(ms[i].key, Canonical(ms[i].value)))))
    case Array(items) =>
      Array(seq(|items|, i requires 0 <= i < |items| => Canonical(items[i])))
    case _ => value
  }

  /** The members of an object with their values made canonical, still in written order. */
  function CanonicalMembers(ms: seq<Member>): (r: seq<Member>)
    ensures |r| == |ms| && forall i :: 0 <= i < |ms| ==> r[i] == Member(ms[i].key, Canonical(ms[i].value))
  {
    seq(|ms|, i requires 0 <= i < |ms| => Member(ms[i].key, Canonical(ms[i].value)))
  }

  lemma CanonicalObject(ms: seq<Member>)
    ensures Canonical(Object(ms)) == Object(SortByKey(CanonicalMembers(ms)))
  {
    assert CanonicalMembers(ms)
        == seq(|ms|, i requires 0 <= i < |ms| => Member(ms[i].key, Canonical(ms[i].value)));
  }

  /** No object anywhere in the value has two members with one key. */
  ghost predicate WellFormed(value: Json) {
    match value
    case Object(ms) => DistinctKeys(ms) && forall i :: 0 <= i < |ms| ==> WellFormed(ms[i].value)
    case Array(items) => forall i :: 0 <= i < |items| ==> WellFormed(items[i])
    case _ => true
  }

  /** Equal but for the order of object members, at any depth. */
  ghost predicate Equivalent(a: Json, b: Json)
    decreases a
  {
    match (a, b)
    case (Object(ms), Object(ns)) =>
      |ms| == |ns| && forall i :: 0 <= i < |ms| ==> Partnered(ms[i], ns)
    case (Array(xs), Array(ys)) =>
      |xs| == |ys| && forall i :: 0 <= i < |xs| ==> Equivalent(xs[i], ys[i])
    case _ => a == b
  }

  ghost predicate Partnered(m: Member, ns: seq<Member>)
    decreases m
  {
    exists j :: 0 <= j < |ns| && ns[j].key == m.key && Equivalent(m.value, ns[j].value)
  }

  // ---- Sorting ----

  lemma {:induction false} InsertSorts(m: Member, ms: seq<Member>)
    requires Ascending(ms) && forall x :: x in ms ==> x.key != m.key
    ensures Ascending(Insert(m, ms)) && |Insert(m, ms)| == |ms| + 1
    ensures forall x :: x in Insert(m, ms) <==> x == m || x in ms
  {
    if ms != [] {
      assert ms[0] in ms;
      LessTrichotomy(m.key, ms[0].key);
      if Less(m.key, ms[0].key) {
        forall i | 1 <= i < |ms| ensures Less(m.key, ms[i].key) { LessTransitive(m.key, ms[0].key, ms[i].key); }
      } else {
        InsertSorts(m, ms[1..]);
        var rest := Insert(m, ms[1..]);
        assert ms == [ms[0]] + ms[1..];
        forall i | 0 <= i < |rest| ensures Less(ms[0].key, rest[i].key) { assert rest[i] in rest; }
      }
    }
  }

  lemma {:induction false} SortSorts(ms: seq<Member>)
    requires DistinctKeys(ms)
    ensures Ascending(SortByKey(ms)) && |SortByKey(ms)| == |ms|
    ensures forall x :: x in SortByKey(ms) <==> x in ms
  {
    if ms != [] {
      var init, last := ms[..|ms| - 1], ms[|ms| - 1];
      SortSorts(init);
      forall x | x in SortByKey(init) ensures x.key != last.key { assert x in init; }
      InsertSorts(last, SortByKey(init));
      assert ms == init + [last];
    }
  }

  /** An ascending sequence is decided by its elements. */
  lemma {:induction false} AscendingUnique(a: seq<Member>, b: seq<Member>)
    requires Ascending(a) && Ascending(b) && |a| == |b| && forall x :: x in a <==> x in b
    ensures a == b
  {
    if a != [] {
      assert a[0] in b && b[0] in a;
      LessTrichotomy(a[0].key, b[0].key);
      assert a[0] == b[0];
      LessTrichotomy(a[0].key, a[0].key);
      forall x ensures x in a[1..] <==> x in b[1..] {
        assert x in a <==> x == a[0] || x in a[1..];
        assert x in b <==> x == b[0] || x in b[1..];
      }
      AscendingUnique(a[1..], b[1..]);
    }
  }

  // ---- The normal form ----

  /** Canonical forms are equal if and only if the values differ in nothing but member order. */
  lemma {:induction false} CanonicalDecides(a: Json, b: Json)
    requires WellFormed(a) && WellFormed(b)
    ensures Canonical(a) == Canonical(b) <==> Equivalent(a, b)
    decreases a
  {
    match (a, b)
    case (Object(ms), Object(ns)) => ObjectsDecide(ms, ns);
    case (Array(xs), Array(ys)) =>
      if |xs| == |ys| {
        forall i | 0 <= i < |xs| ensures Canonical(xs[i]) == Canonical(ys[i]) <==> Equivalent(xs[i], ys[i]) {
          CanonicalDecides(xs[i], ys[i]);
        }
        if Canonical(a) == Canonical(b) {
          forall i | 0 <= i < |xs| ensures Equivalent(xs[i], ys[i]) {
            assert Canonical(a).items[i] == Canonical(b).items[i];
          }
        }
      } else {
        assert |Canonical(a).items| == |xs| && |Canonical(b).items| == |ys|;
      }
    case _ =>
  }

  lemma {:induction false} ObjectsDecide(ms: seq<Member>, ns: seq<Member>)
    requires WellFormed(Object(ms)) && WellFormed(Object(ns))
    ensures Canonical(Object(ms)) == Canonical(Object(ns)) <==> Equivalent(Object(ms), Object(ns))
    decreases Object(ms), 0
  {
    var a, b := Object(ms), Object(ns);
    var cms, cns := CanonicalMembers(ms), CanonicalMembers(ns);
    CanonicalObject(ms);
    CanonicalObject(ns);
    SortSorts(cms);
    SortSorts(cns);
    forall i | 0 <= i < |ms| ensures cms[i] in cns <==> Partnered(ms[i], ns) {
      forall j | 0 <= j < |ns| ensures Canonical(ms[i].value) == Canonical(ns[j].value) <==> Equivalent(ms[i].value, ns[j].value) {
        CanonicalDecides(ms[i].value, ns[j].value);
      }
      SamePartners(ms[i], ns);
    }
    hide Partnered, WellFormed;
    if Canonical(a) == Canonical(b) {
      forall i | 0 <= i < |ms| ensures Partnered(ms[i], ns) {
        assert cms[i] in SortByKey(cms);
      }
    }
    if Equivalent(a, b) {
      forall x | x in cms ensures x in cns {
        var i :| 0 <= i < |cms| && cms[i] == x;
        assert Partnered(ms[i], ns);
      }
      SameLengthSameElements(cms, cns);
      AscendingUnique(SortByKey(cms), SortByKey(cns));
    }
  }

  /** Members match when their canonical forms do, if values do. */
  lemma SamePartners(m: Member, ns: seq<Member>)
    requires forall j :: 0 <= j < |ns| ==>
      (Canonical(m.value) == Canonical(ns[j].value) <==> Equivalent(m.value, ns[j].value))
    ensures Member(m.key, Canonical(m.value)) in CanonicalMembers(ns) <==> Partnered(m, ns)
  {
    var cns, cm := CanonicalMembers(ns), Member(m.key, Canonical(m.value));
    if cm in cns {
      var j :| 0 <= j < |cns| && cns[j] == cm;
      assert ns[j].key == m.key;
    }
    if Partnered(m, ns) {
      var j :| 0 <= j < |ns| && ns[j].key == m.key && Equivalent(m.value, ns[j].value);
      assert cns[j] == cm;
    }
  }

  /** Distinct members, as many as there are places for them, leave no place out. */
  lemma SameLengthSameElements(a: seq<Member>, b: seq<Member>)
    requires DistinctKeys(a) && |a| == |b| && forall x :: x in a ==> x in b
    ensures forall x :: x in b ==> x in a
  {
    var sa, sb := set x | x in a, set x | x in b;
    DistinctSize(a);
    ElementsSize(b);
    if x :| x in b && x !in a {
      assert sa + {x} <= sb;
      SubsetSize(sa + {x}, sb);
    }
  }

  lemma {:induction false} DistinctSize(a: seq<Member>)
    requires DistinctKeys(a)
    ensures |set x | x in a| == |a|
  {
    if a != [] {
      var init, last := a[..|a| - 1], a[|a| - 1];
      DistinctSize(init);
      assert (set x | x in a) == (set x | x in init) + {last} by { assert a == init + [last]; }
    }
  }

  lemma {:induction false} ElementsSize(a: seq<Member>)
    ensures |set x | x in a| <= |a|
  {
    if a != [] {
      var init, last := a[..|a| - 1], a[|a| - 1];
      ElementsSize(init);
      assert (set x | x in a) == (set x | x in init) + {last} by { assert a == init + [last]; }
    }
  }

  /** Canonicalizing changes the order of members and nothing else, and a second time nothing at all. */
  lemma {:induction false} CanonicalKeepsMeaning(a: Json)
    requires WellFormed(a)
    ensures WellFormed(Canonical(a)) && Equivalent(a, Canonical(a))
    ensures Canonical(Canonical(a)) == Canonical(a)
    decreases a, 1
  {
    match a {
      case Object(ms) => ObjectKeepsMeaning(ms);
      case Array(items) =>
        forall i | 0 <= i < |items|
          ensures WellFormed(Canonical(items[i])) && Equivalent(items[i], Canonical(items[i]))
        {
          CanonicalKeepsMeaning(items[i]);
        }
      case _ =>
    }
    CanonicalDecides(a, Canonical(a));
  }

  lemma {:induction false} ObjectKeepsMeaning(ms: seq<Member>)
    requires WellFormed(Object(ms))
    ensures WellFormed(Canonical(Object(ms))) && Equivalent(Object(ms), Canonical(Object(ms)))
    decreases Object(ms), 0
  {
    var cms := CanonicalMembers(ms);
    var sorted := SortByKey(cms);
    CanonicalObject(ms);
    SortSorts(cms);
    forall i, j | 0 <= i < j < |sorted| ensures sorted[i].key != sorted[j].key {
      LessTrichotomy(sorted[i].key, sorted[j].key);
    }
    forall j | 0 <= j < |sorted| ensures WellFormed(sorted[j].value) {
      assert sorted[j] in cms;
      var i :| 0 <= i < |cms| && cms[i] == sorted[j];
      CanonicalKeepsMeaning(ms[i].value);
    }
    forall i | 0 <= i < |ms| ensures Partnered(ms[i], sorted) {
      assert cms[i] in sorted;
      var j :| 0 <= j < |sorted| && sorted[j] == cms[i];
      CanonicalKeepsMeaning(ms[i].value);
      assert sorted[j].key == ms[i].key;
    }
  }

  /** Every object, at any depth, lists its keys in ascending order. */
  ghost predicate InOrder(value: Json) {
    match value
    case Object(ms) => Ascending(ms) && forall i :: 0 <= i < |ms| ==> InOrder(ms[i].value)
    case Array(items) => forall i :: 0 <= i < |items| ==> InOrder(items[i])
    case _ => true
  }

  /** A canonical form is in order. */
  lemma {:induction false} CanonicalInOrder(a: Json)
    requires WellFormed(a)
    ensures InOrder(Canonical(a))
    decreases a, 1
  {
    match a {
      case Object(ms) =>
        var cms := CanonicalMembers(ms);
        CanonicalObject(ms);
        SortSorts(cms);
        forall j | 0 <= j < |SortByKey(cms)| ensures InOrder(SortByKey(cms)[j].value) {
          assert SortByKey(cms)[j] in cms;
          var i :| 0 <= i < |cms| && cms[i] == SortByKey(cms)[j];
          CanonicalInOrder(ms[i].value);
        }
      case Array(items) =>
        forall i | 0 <= i < |items| ensures InOrder(Canonical(items[i])) { CanonicalInOrder(items[i]); }
      case _ =>
    }
  }

  // ---- Lookups ----

  datatype Step = Key(key: string) | Index(index: nat)

  function Find(ms: seq<Member>, key: string): Option<Json> {
    if ms == [] then None
    else if ms[|ms| - 1].key == key then Some(ms[|ms| - 1].value)
    else Find(ms[..|ms| - 1], key)
  }

  /** What a reader finds at the end of a path of keys and indices. */
  function At(value: Json, path: seq<Step>): Option<Json>
    decreases |path|
  {
    if path == [] then Some(value)
    else match (value, path[0])
      case (Object(ms), Key(key)) =>
        (match Find(ms, key) case Some(v) => At(v, path[1..]) case None => None)
      case (Array(items), Index(i)) => if i < |items| then At(items[i], path[1..]) else None
      case _ => None
  }

  lemma {:induction false} FindFinds(ms: seq<Member>, key: string, v: Json)
    requires DistinctKeys(ms)
    ensures Find(ms, key) == Some(v) <==> Member(key, v) in ms
  {
    if ms != [] {
      var init, last := ms[..|ms| - 1], ms[|ms| - 1];
      assert ms == init + [last];
      FindFinds(init, key, v);
    }
  }

  /** Every path leads to the same place: what a path finds in the canonical form is the canonical
      form of what it finds in the value, arrays in their order. */
  lemma {:induction false} LookupsPreserved(value: Json, path: seq<Step>)
    requires WellFormed(value)
    ensures At(Canonical(value), path) == match At(value, path) case Some(v) => Some(Canonical(v)) case None => None
    decreases |path|
  {
    if path != [] {
      match (value, path[0])
      case (Object(ms), Key(key)) =>
        FindCanonical(ms, key);
        if Find(ms, key).Some? {
          var v := Find(ms, key).value;
          FindFinds(ms, key, v);
          LookupsPreserved(v, path[1..]);
        }
      case (Array(items), Index(i)) =>
        if i < |items| { LookupsPreserved(items[i], path[1..]); }
      case _ =>
    }
  }

  lemma FindCanonical(ms: seq<Member>, key: string)
    requires WellFormed(Object(ms))
    ensures Canonical(Object(ms)).Object?
    ensures Find(Canonical(Object(ms)).members, key)
         == match Find(ms, key) case Some(v) => Some(Canonical(v)) case None => None
  {
    var cms := CanonicalMembers(ms);
    var sorted := SortByKey(cms);
    CanonicalObject(ms);
    SortSorts(cms);
    assert DistinctKeys(sorted) by { ObjectKeepsMeaning(ms); }
    match Find(ms, key)
    case Some(v) =>
      FindFinds(ms, key, v);
      var i :| 0 <= i < |ms| && ms[i] == Member(key, v);
      assert cms[i] in sorted;
      FindFinds(sorted, key, Canonical(v));
    case None =>
      match Find(sorted, key)
      case Some(w) =>
        FindFinds(sorted, key, w);
        var i :| 0 <= i < |cms| && cms[i] == Member(key, w);
        FindFinds(ms, key, ms[i].value);
      case None =>
  }

  // ---- The twin ----

  /** `Object.keys(val).sort()`. */
  function SortedKeys(ms: seq<Member>): (keys: seq<string>)
    ensures |keys| == |SortByKey(ms)| && forall i :: 0 <= i < |keys| ==> keys[i] == SortByKey(ms)[i].key
  {
    seq(|SortByKey(ms)|, i requires 0 <= i < |SortByKey(ms)| => SortByKey(ms)[i].key)
  }

  /** The web client's version, which fills its result key by key, builds the same normal form. */
  method CanonicalizeJson(val: Json) returns (r: Json)
    requires WellFormed(val)
    ensures r == Canonical(val)
    decreases val
  {
    match val {
      case Array(items) =>
        var mapped := [];
        for i := 0 to |items|
          invariant |mapped| == i && forall k :: 0 <= k < i ==> mapped[k] == Canonical(items[k])
        {
          var item := CanonicalizeJson(items[i]);
          mapped := mapped + [item];
        }
        return Array(mapped);
      case Object(ms) =>
        var keys := SortedKeys(ms);
        var result: seq<Member> := [];
        SortSorts(ms);
        hide Find, SortByKey;
        for i := 0 to |keys|
          invariant |result| == i
          invariant forall k :: 0 <= k < i ==> result[k] == Member(keys[k], Canonical(SortByKey(ms)[k].value))
        {
          var m := SortByKey(ms)[i];
          assert m in ms;
          FindFinds(ms, keys[i], m.value);
          var value := CanonicalizeJson(Find(ms, keys[i]).value);
          result := result + [Member(keys[i], value)];
        }
        FilledIsCanonical(ms, result);
        return Object(result);
      case _ =>
        return val;
    }
  }

  lemma FilledIsCanonical(ms: seq<Member>, result: seq<Member>)
    requires WellFormed(Object(ms)) && |result| == |SortByKey(ms)|
    requires forall k :: 0 <= k < |result| ==> result[k] == Member(SortByKey(ms)[k].key, Canonical(SortByKey(ms)[k].value))
    ensures Object(result) == Canonical(Object(ms))
  {
    var cms, sorted := CanonicalMembers(ms), SortByKey(ms);
    CanonicalObject(ms);
    SortSorts(ms);
    SortSorts(cms);
    forall x ensures x in result <==> x in SortByKey(cms) {
      if x in result {
        var k :| 0 <= k < |result| && result[k] == x;
        assert sorted[k] in ms;
        var i :| 0 <= i < |ms| && ms[i] == sorted[k];
        assert cms[i] == x;
      }
      if x in cms {
        var i :| 0 <= i < |cms| && cms[i] == x;
        assert ms[i] in sorted;
        var k :| 0 <= k < |sorted| && sorted[k] == ms[i];
        assert result[k] == x;
      }
    }
    AscendingUnique(result, SortByKey(cms));
  }
}
