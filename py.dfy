/** Python value semantics shared by every ratio calculator: None, raised
    exceptions, insertion-ordered dictionaries, truthiness of numbers, and the
    int()/str() conversions applied to year keys. */
module Py {

  datatype Option<+T> = None | Some(value: T)

  /** The exception classes that the modelled code can raise. */
  datatype Error = ValueError | TypeError | KeyError | IndexError | ZeroDivisionError

  /** What a Python call does: return a value or raise an exception. */
  datatype Outcome<+T> = Ok(value: T) | Raise(error: Error)

  predicate Distinct<K(==)>(s: seq<K>) {
    forall i, j :: 0 <= i < j < |s| ==> s[i] != s[j]
  }

  datatype DictRep<K, V> = DictRep(keys: seq<K>, items: map<K, V>)

  /** A Python dict: its keys in insertion order, each exactly once, and the
      value stored under each key. */
  type Dict<K(!new), V> = d: DictRep<K, V> |
    Distinct(d.keys) && forall k :: k in d.items <==> k in d.keys
    witness DictRep([], map[])

  function EmptyDict<K(!new), V>(): Dict<K, V> {
    DictRep([], map[])
  }

  /** `d[k] = v`: a new key goes to the end, an existing key keeps its place. */
  function Assign<K(!new), V>(d: Dict<K, V>, k: K, v: V): Dict<K, V> {
    if k in d.items then DictRep(d.keys, d.items[k := v])
    else DictRep(d.keys + [k], d.items[k := v])
  }

  /** `d.get(k)`. */
  function Get<K(!new), V>(d: Dict<K, V>, k: K): Option<V> {
    if k in d.items then Some(d.items[k]) else None
  }

  /** `a` lists some of the elements of `b`, in the order `b` lists them. */
  predicate Subsequence<T(==)>(a: seq<T>, b: seq<T>)
    decreases |b|
  {
    if a == [] then true
    else if b == [] then false
    else if a[|a| - 1] == b[|b| - 1] then Subsequence(a[..|a| - 1], b[..|b| - 1])
    else Subsequence(a, b[..|b| - 1])
  }

  /** Appending an element to `b` keeps `a` a subsequence of it, and
      appending the same element to both keeps the relation. */
  lemma SubsequenceAppend<T>(a: seq<T>, b: seq<T>, x: T)
    requires Subsequence(a, b) && x !in a
    ensures Subsequence(a, b + [x]) && Subsequence(a + [x], b + [x])
  {
    assert (b + [x])[..|b|] == b;
    assert (a + [x])[..|a|] == a;
    if a != [] {
      assert a[|a| - 1] in a;
    }
  }

  /** Dropping the last element of a subsequence leaves a subsequence. */
  lemma {:induction false} SubsequenceDropLast<T>(a: seq<T>, b: seq<T>)
    requires Subsequence(a, b) && a != []
    ensures Subsequence(a[..|a| - 1], b)
    decreases |b|
  {
    var a' := a[..|a| - 1];
    var b' := b[..|b| - 1];
    if a[|a| - 1] == b[|b| - 1] {
      if a' != [] && a'[|a'| - 1] == b[|b| - 1] {
        SubsequenceDropLast(a', b');
        assert a'[..|a'| - 1] == a[..|a| - 2];
      }
    } else {
      SubsequenceDropLast(a, b');
      if a' != [] && a'[|a'| - 1] == b[|b| - 1] {
        SubsequenceDropLast(a', b');
      }
    }
  }

  /** Every sequence is a subsequence of itself. */
  lemma {:induction false} SubsequenceOfItself<T>(a: seq<T>)
    ensures Subsequence(a, a)
    decreases |a|
  {
    if a != [] {
      SubsequenceOfItself(a[..|a| - 1]);
    }
  }

  /** Appending any element to `b` keeps `a` a subsequence of it. */
  lemma SubsequenceExtend<T>(a: seq<T>, b: seq<T>, x: T)
    requires Subsequence(a, b)
    ensures Subsequence(a, b + [x])
  {
    assert (b + [x])[..|b|] == b;
    if a != [] && a[|a| - 1] == x {
      SubsequenceDropLast(a, b);
    }
  }

  /** `d[k] = v` after the keys `b`: the dict's keys stay in the order of
      `b + [k]`. */
  lemma AssignKeepsOrder<K(!new), V>(d: Dict<K, V>, k: K, v: V, b: seq<K>)
    requires Subsequence(d.keys, b)
    ensures Subsequence(Assign(d, k, v).keys, b + [k])
  {
    assert (b + [k])[..|b|] == b;
    if k in d.items {
      SubsequenceExtend(d.keys, b, k);
    } else {
      assert (d.keys + [k])[..|d.keys|] == d.keys;
    }
  }

  /** `for k, v in pairs: d[k] = v`, written as a fold. */
  function AssignAll<K(!new), V>(d: Dict<K, V>, pairs: seq<(K, V)>): Dict<K, V>
    decreases |pairs|
  {
    if pairs == [] then d
    else Assign(AssignAll(d, pairs[..|pairs| - 1]), pairs[|pairs| - 1].0, pairs[|pairs| - 1].1)
  }

  /** `d = {}; for k, v in pairs: d[k] = v`. */
  method FillDict<K(!new), V>(pairs: seq<(K, V)>) returns (d: Dict<K, V>)
    ensures d == AssignAll(EmptyDict(), pairs)
  {
    d := EmptyDict();
    var i := 0;
    while i < |pairs|
      invariant 0 <= i <= |pairs|
      invariant d == AssignAll(EmptyDict(), pairs[..i])
    {
      assert pairs[..i + 1][..i] == pairs[..i];
      d := Assign(d, pairs[i].0, pairs[i].1);
      i := i + 1;
    }
    assert pairs[..i] == pairs;
  }

  /** `d = {}; for k in keys: d[k] = f(k)` where computing `f(k)` may
      raise: the first raising key, in order, ends the loop. */
  method MapChecked<K(!new), V>(keys: seq<K>, f: K -> Outcome<V>) returns (r: Outcome<Dict<K, V>>)
    ensures r.Raise? <==> exists i :: 0 <= i < |keys| && f(keys[i]).Raise?
    ensures r.Raise? ==> exists i :: 0 <= i < |keys| && f(keys[i]) == Raise(r.error)
                                    && forall j :: 0 <= j < i ==> f(keys[j]).Ok?
    ensures r.Ok? ==> forall k :: k in r.value.items <==> k in keys
    ensures r.Ok? ==> forall k :: k in r.value.items ==> f(k) == Ok(r.value.items[k])
    ensures r.Ok? && Distinct(keys) ==> r.value.keys == keys
  {
    var d: Dict<K, V> := EmptyDict();
    var i := 0;
    while i < |keys|
      invariant 0 <= i <= |keys|
      invariant forall j :: 0 <= j < i ==> f(keys[j]).Ok?
      invariant forall k :: k in d.items <==> k in keys[..i]
      invariant forall k :: k in d.items ==> f(k) == Ok(d.items[k])
      invariant Distinct(keys) ==> d.keys == keys[..i]
    {
      var k := keys[i];
      assert keys[..i + 1] == keys[..i] + [k];
      match f(k) {
        case Raise(e) =>
          assert f(keys[i]) == Raise(e);
          return Raise(e);
        case Ok(v) =>
          if Distinct(keys) {
            assert k !in keys[..i];
          }
          d := Assign(d, k, v);
      }
      i := i + 1;
    }
    assert keys[..i] == keys;
    return Ok(d);
  }

  /** The state of the update loop after the keys `prefix`, none of which
      raised: the keys with a value are stored, the others of `d` kept, and
      none of the others changed. */
  ghost predicate UpdatedBy<K(!new), V>(acc: Dict<K, V>, d: Dict<K, V>, prefix: seq<K>, f: K -> Option<Outcome<V>>) {
    (forall k :: k in acc.items <==> k in d.items || (k in prefix && f(k).Some?))
    && (forall k :: k in prefix && f(k).Some? ==> f(k) == Some(Ok(acc.items[k])))
    && (forall k :: k in d.items && !(k in prefix && f(k).Some?) ==> acc.items[k] == d.items[k])
  }

  /** One non-raising iteration of the update loop. */
  lemma UpdateStep<K(!new), V>(acc: Dict<K, V>, d: Dict<K, V>, prefix: seq<K>, k: K, f: K -> Option<Outcome<V>>)
    requires UpdatedBy(acc, d, prefix, f) && k !in prefix
    ensures f(k).None? ==> UpdatedBy(acc, d, prefix + [k], f)
    ensures f(k).Some? && f(k).value.Ok? ==> UpdatedBy(Assign(acc, k, f(k).value.value), d, prefix + [k], f)
  {
  }

  /** `for k in keys: if <condition>: d[k] = <value>` where `f(k)` is None
      when the condition fails and computing the value may raise: the first
      raising key, in order, ends the loop. */
  method UpdateChecked<K(!new), V>(d: Dict<K, V>, keys: seq<K>, f: K -> Option<Outcome<V>>)
    returns (r: Outcome<Dict<K, V>>)
    requires Distinct(keys)
    ensures r.Raise? <==> exists i :: 0 <= i < |keys| && f(keys[i]).Some? && f(keys[i]).value.Raise?
    ensures r.Raise? ==> exists i :: 0 <= i < |keys| && f(keys[i]) == Some(Raise(r.error))
    ensures r.Ok? ==> forall k :: k in r.value.items <==> k in d.items || (k in keys && f(k).Some?)
    ensures r.Ok? ==> forall k :: k in keys && f(k).Some? ==> f(k) == Some(Ok(r.value.items[k]))
    ensures r.Ok? ==> forall k :: k in d.items && !(k in keys && f(k).Some?) ==> r.value.items[k] == d.items[k]
    ensures r.Ok? ==> Subsequence(r.value.keys, d.keys + keys)
  {
    var acc := d;
    var i := 0;
    ghost var seen := d.keys;
    SubsequenceOfItself(d.keys);
    while i < |keys|
      invariant 0 <= i <= |keys|
      invariant forall j :: 0 <= j < i && f(keys[j]).Some? ==> f(keys[j]).value.Ok?
      invariant UpdatedBy(acc, d, keys[..i], f)
      invariant seen == d.keys + keys[..i] && Subsequence(acc.keys, seen)
    {
      var k := keys[i];
      assert keys[..i + 1] == keys[..i] + [k];
      assert k !in keys[..i];
      UpdateStep(acc, d, keys[..i], k, f);
      match f(k) {
        case None =>
          SubsequenceExtend(acc.keys, seen, k);
        case Some(Raise(e)) =>
          assert f(keys[i]) == Some(Raise(e));
          return Raise(e);
        case Some(Ok(v)) =>
          AssignKeepsOrder(acc, k, v, seen);
          acc := Assign(acc, k, v);
      }
      seen := seen + [k];
      i := i + 1;
    }
    assert keys[..i] == keys;
    forall j | 0 <= j < |keys| && f(keys[j]).Some? ensures f(keys[j]).value.Ok? {
      assert keys[j] in keys[..i];
    }
    return Ok(acc);
  }

  /** Filling a fresh dict pair by pair keeps only keys that occur ... */
  lemma {:induction false} AssignAllKeysOccur<K(!new), V>(pairs: seq<(K, V)>, k: K)
    ensures k in AssignAll(EmptyDict(), pairs).items ==> exists i :: 0 <= i < |pairs| && pairs[i].0 == k
    decreases |pairs|
  {
    if pairs != [] {
      var n := |pairs| - 1;
      var init := pairs[..n];
      AssignAllKeysOccur(init, k);
      var r0 := AssignAll(EmptyDict(), init);
      assert AssignAll(EmptyDict(), pairs) == Assign(r0, pairs[n].0, pairs[n].1);
      if k in r0.items {
        var i :| 0 <= i < |init| && init[i].0 == k;
        assert pairs[i] == init[i];
      }
    }
  }

  /** ... and every key that occurs. */
  lemma {:induction false} AssignAllKeysKept<K(!new), V>(pairs: seq<(K, V)>, i: nat)
    requires i < |pairs|
    ensures pairs[i].0 in AssignAll(EmptyDict(), pairs).items
    decreases |pairs|
  {
    var n := |pairs| - 1;
    var init := pairs[..n];
    var r0 := AssignAll(EmptyDict(), init);
    if i < n {
      assert init[i] == pairs[i];
      AssignAllKeysKept(init, i);
      AssignKeepsKeys(r0, pairs[n].0, pairs[n].1, pairs[i].0);
    } else {
      AssignKeepsKeys(r0, pairs[n].0, pairs[n].1, pairs[n].0);
    }
  }

  /** `d[k] = v` keeps every key of `d` and adds `k`. */
  lemma AssignKeepsKeys<K(!new), V>(d: Dict<K, V>, k: K, v: V, x: K)
    ensures x in Assign(d, k, v).items <==> x in d.items || x == k
  {
  }

  /** A key that occurs several times holds the value of its last
      occurrence. */
  lemma {:induction false} AssignAllLastWins<K(!new), V>(pairs: seq<(K, V)>, i: nat)
    requires i < |pairs|
    requires forall j :: i < j < |pairs| ==> pairs[j].0 != pairs[i].0
    ensures pairs[i].0 in AssignAll(EmptyDict(), pairs).items
    ensures AssignAll(EmptyDict(), pairs).items[pairs[i].0] == pairs[i].1
    decreases |pairs|
  {
    var n := |pairs| - 1;
    var init := pairs[..n];
    var r0 := AssignAll(EmptyDict(), init);
    assert AssignAll(EmptyDict(), pairs) == Assign(r0, pairs[n].0, pairs[n].1);
    if i < n {
      assert init[i] == pairs[i];
      assert forall j :: i < j < |init| ==> init[j] == pairs[j];
      AssignAllLastWins(init, i);
      assert pairs[n].0 != pairs[i].0;
    }
  }

  /** With distinct keys, the filled dict lists the keys in the order given. */
  lemma {:induction false} AssignAllDistinctKeys<K(!new), V>(pairs: seq<(K, V)>)
    requires forall i, j :: 0 <= i < j < |pairs| ==> pairs[i].0 != pairs[j].0
    ensures |AssignAll(EmptyDict(), pairs).keys| == |pairs|
    ensures forall i :: 0 <= i < |pairs| ==> AssignAll(EmptyDict(), pairs).keys[i] == pairs[i].0
    decreases |pairs|
  {
    if pairs != [] {
      var n := |pairs| - 1;
      var init := pairs[..n];
      assert forall i, j :: 0 <= i < j < |init| ==> init[i] == pairs[i] && init[j] == pairs[j];
      AssignAllDistinctKeys(init);
      forall i | 0 <= i < |init| ensures init[i].0 != pairs[n].0 {
        assert init[i] == pairs[i];
      }
      AssignAllKeysOccur(init, pairs[n].0);
      AssignNewKeyLast(AssignAll(EmptyDict(), init), pairs);
    }
  }

  /** Assigning the key of the last pair, new to a dict listing the keys of
      the others, lists the keys of all pairs. */
  lemma AssignNewKeyLast<K(!new), V>(r0: Dict<K, V>, pairs: seq<(K, V)>)
    requires |pairs| > 0 && |r0.keys| == |pairs| - 1
    requires forall i :: 0 <= i < |pairs| - 1 ==> r0.keys[i] == pairs[i].0
    requires pairs[|pairs| - 1].0 !in r0.items
    ensures var r := Assign(r0, pairs[|pairs| - 1].0, pairs[|pairs| - 1].1);
            |r.keys| == |pairs| && forall i :: 0 <= i < |pairs| ==> r.keys[i] == pairs[i].0
  {
  }

  /** The first key assigned stays the first key of the dict. */
  lemma {:induction false} AssignAllFirstKey<K(!new), V>(pairs: seq<(K, V)>)
    requires pairs != []
    ensures |AssignAll(EmptyDict(), pairs).keys| > 0 && AssignAll(EmptyDict(), pairs).keys[0] == pairs[0].0
    decreases |pairs|
  {
    if |pairs| > 1 {
      var n := |pairs| - 1;
      AssignAllFirstKey(pairs[..n]);
    }
  }

  /** `d = {k0: v0}` followed by distinct assignments: every key is there,
      each later key holds its own value, `k0` keeps `v0` unless reassigned,
      and `k0` stays first. */
  lemma AssignAllAfterHead<K(!new), V>(k0: K, v0: V, rest: seq<(K, V)>)
    requires forall i, j :: 0 <= i < j < |rest| ==> rest[i].0 != rest[j].0
    ensures var d := AssignAll(EmptyDict(), [(k0, v0)] + rest);
            (forall k :: k in d.items <==> k == k0 || exists i :: 0 <= i < |rest| && rest[i].0 == k)
            && (forall i :: 0 <= i < |rest| ==> rest[i].0 in d.items && d.items[rest[i].0] == rest[i].1)
            && ((forall i :: 0 <= i < |rest| ==> rest[i].0 != k0) ==> d.items[k0] == v0)
            && d.keys[0] == k0
  {
    var pairs := [(k0, v0)] + rest;
    var d := AssignAll(EmptyDict(), pairs);
    forall k | k in d.items && k != k0 ensures exists i :: 0 <= i < |rest| && rest[i].0 == k {
      AssignAllKeysOccur(pairs, k);
      var i :| 0 <= i < |pairs| && pairs[i].0 == k;
      assert rest[i - 1] == pairs[i];
    }
    AssignAllKeysKept(pairs, 0);
    forall i | 0 <= i < |rest| ensures rest[i].0 in d.items && d.items[rest[i].0] == rest[i].1 {
      assert pairs[i + 1] == rest[i];
      AssignAllLastWins(pairs, i + 1);
    }
    if forall i :: 0 <= i < |rest| ==> rest[i].0 != k0 {
      AssignAllLastWins(pairs, 0);
    }
    AssignAllFirstKey(pairs);
  }

  /** With distinct keys, every pair lands in the filled dict as given. */
  lemma AssignAllDistinctPairs<K(!new), V>(pairs: seq<(K, V)>)
    requires forall i, j :: 0 <= i < j < |pairs| ==> pairs[i].0 != pairs[j].0
    ensures |AssignAll(EmptyDict(), pairs).keys| == |pairs|
    ensures forall i :: 0 <= i < |pairs| ==> AssignAll(EmptyDict(), pairs).keys[i] == pairs[i].0
    ensures forall i :: 0 <= i < |pairs| ==>
              pairs[i].0 in AssignAll(EmptyDict(), pairs).items && AssignAll(EmptyDict(), pairs).items[pairs[i].0] == pairs[i].1
  {
    AssignAllDistinctKeys(pairs);
    forall i | 0 <= i < |pairs|
      ensures pairs[i].0 in AssignAll(EmptyDict(), pairs).items && AssignAll(EmptyDict(), pairs).items[pairs[i].0] == pairs[i].1
    {
      AssignAllLastWins(pairs, i);
    }
  }

  /** Position of the first occurrence of `x` in `s`. */
  function IndexOf<T(==)>(s: seq<T>, x: T): (i: nat)
    requires x in s
    ensures i < |s| && s[i] == x && x !in s[..i]
  {
    if s[0] == x then 0 else 1 + IndexOf(s[1..], x)
  }

  /** Python truthiness of a number that may be None: non-None and non-zero. */
  predicate Truthy(v: Option<real>) {
    v.Some? && v.value != 0.0
  }

  /** A statement period: line-item name to value, None for a blank item. */
  type Record = map<string, Option<real>>

  /** `record.get(name, None)`. */
  function Item(rec: Record, name: string): Option<real> {
    if name in rec then rec[name] else None
  }

  /** A statement keyed by period: period key to that period's record. */
  type Statement = Dict<string, Record>

  /** `statement.get(period, {}).get(name, None)`. */
  function Line(st: Statement, period: string, name: string): Option<real> {
    if period in st.items then Item(st.items[period], name) else None
  }

  /** A dict key as Python sees it: `2023` and `"2023"` are different keys. */
  datatype Key = IntKey(i: int) | StrKey(s: string)

  /** `s[:n]` for a Python int n (a negative n drops |n| items from the end);
      also what `DataFrame.head(n)` and `iloc[:, :n]` select. */
  function Prefix<T>(s: seq<T>, n: int): seq<T> {
    if n >= 0 then s[..if n < |s| then n else |s|]
    else s[..if |s| + n > 0 then |s| + n else 0]
  }

  // ---------------------------------------------------------------------
  // str(int) and int(str)
  // ---------------------------------------------------------------------

  predicate IsDigit(c: char) {
    '0' <= c <= '9'
  }

  function DigitChar(d: nat): char
    requires d < 10
  {
    (48 + d) as char
  }

  function DigitValue(c: char): nat
    requires IsDigit(c)
  {
    c as int - 48
  }

  /** The value of a non-empty run of ASCII digits, most significant first;
      None for anything else. */
  function ParseDigits(s: string): Option<nat>
    decreases |s|
  {
    if |s| == 0 || !IsDigit(s[|s| - 1]) then None
    else if |s| == 1 then Some(DigitValue(s[0]))
    else match ParseDigits(s[..|s| - 1])
      case None => None
      case Some(v) => Some(v * 10 + DigitValue(s[|s| - 1]))
  }

  /** `str(n)` for n >= 0. */
  function NatToString(n: nat): string {
    if n < 10 then [DigitChar(n)] else NatToString(n / 10) + [DigitChar(n % 10)]
  }

  /** `str(i)`. */
  function IntToString(i: int): string {
    if i < 0 then "-" + NatToString(-i) else NatToString(i)
  }

  /** `int(s)` on an optional sign followed by decimal digits; None where
      Python raises ValueError. */
  function ParseInt(s: string): Option<int> {
    if |s| > 0 && s[0] == '-' then
      match ParseDigits(s[1..])
      case None => None
      case Some(v) => Some(-(v as int))
    else if |s| > 0 && s[0] == '+' then
      match ParseDigits(s[1..])
      case None => None
      case Some(v) => Some(v as int)
    else
      match ParseDigits(s)
      case None => None
      case Some(v) => Some(v as int)
  }

  lemma {:induction false} NatToStringDigits(n: nat)
    ensures ParseDigits(NatToString(n)) == Some(n)
    ensures IsDigit(NatToString(n)[0])
  {
    var s := NatToString(n);
    if n >= 10 {
      NatToStringDigits(n / 10);
      var p := NatToString(n / 10);
      assert s == p + [DigitChar(n % 10)];
      assert s[..|s| - 1] == p;
      assert s[0] == p[0];
    }
  }

  /** `int(str(i)) == i`: the conversion round trip the year-key arithmetic
      relies on. */
  lemma IntStringRoundTrip(i: int)
    ensures ParseInt(IntToString(i)) == Some(i)
  {
    var s := IntToString(i);
    if i < 0 {
      NatToStringDigits(-i);
      assert s[1..] == NatToString(-i);
    } else {
      NatToStringDigits(i);
      assert s[0] != '-' && s[0] != '+';
    }
  }

  /** `str(int(s))` gives back `s` when `s` is a canonical decimal (no sign,
      no leading zero). */
  lemma {:induction false} CanonicalDigitsRoundTrip(s: string)
    requires ParseDigits(s).Some? && (s[0] != '0' || |s| == 1)
    ensures NatToString(ParseDigits(s).value) == s
    decreases |s|
  {
    if |s| > 1 {
      var p := s[..|s| - 1];
      assert p[0] == s[0];
      CanonicalDigitsRoundTrip(p);
      LeadingDigitPositive(p);
      var pv := ParseDigits(p).value;
      var d := DigitValue(s[|s| - 1]);
      assert ParseDigits(s).value == pv * 10 + d;
      assert (pv * 10 + d) / 10 == pv && (pv * 10 + d) % 10 == d;
      assert DigitChar(d) == s[|s| - 1];
      assert s == p + [s[|s| - 1]];
    }
  }

  lemma {:induction false} LeadingDigitPositive(s: string)
    requires ParseDigits(s).Some? && s[0] != '0'
    ensures ParseDigits(s).value > 0
    decreases |s|
  {
    if |s| > 1 {
      var p := s[..|s| - 1];
      assert p[0] == s[0];
      LeadingDigitPositive(p);
    }
  }

  // ---------------------------------------------------------------------
  // str methods
  // ---------------------------------------------------------------------

  /** `pat` occurs in `s` at position i. */
  predicate OccursAt(s: string, pat: string, i: int) {
    0 <= i && i + |pat| <= |s| && s[i..i + |pat|] == pat
  }

  /** `pat not in s`. */
  ghost predicate Free(s: string, pat: string) {
    forall i :: !OccursAt(s, pat, i)
  }

  /** The ASCII whitespace `str.split()` separates on: space, \t, \n, \r,
      \x0b, \x0c and the separators \x1c to \x1f. */
  predicate IsSpace(c: char) {
    c == ' ' || c == '\t' || c == '\n' || c == '\r' || c == '\U{B}' || c == '\U{C}'
    || ('\U{1C}' <= c <= '\U{1F}')
  }

  /** The characters before the first whitespace. */
  function TakeWord(s: string): (r: string)
    ensures |r| <= |s| && r == s[..|r|]
    ensures forall i :: 0 <= i < |r| ==> !IsSpace(r[i])
    ensures s != [] && !IsSpace(s[0]) ==> |r| > 0
    ensures |r| < |s| ==> IsSpace(s[|r|])
  {
    if s == [] || IsSpace(s[0]) then [] else [s[0]] + TakeWord(s[1..])
  }

  /** `s.split()`: the maximal runs of non-whitespace characters, in order. */
  function Split(s: string): (r: seq<string>)
    ensures forall k :: 0 <= k < |r| ==> r[k] != [] && forall i :: 0 <= i < |r[k]| ==> !IsSpace(r[k][i])
    decreases |s|
  {
    if s == [] then []
    else if IsSpace(s[0]) then Split(s[1..])
    else
      var w := TakeWord(s);
      [w] + Split(s[|w|..])
  }

  lemma {:induction false} TakeWordBeforeSpace(w: string, rest: string)
    requires forall i :: 0 <= i < |w| ==> !IsSpace(w[i])
    ensures TakeWord(w + " " + rest) == w
  {
    if w != [] {
      assert (w + " " + rest)[1..] == w[1..] + " " + rest;
      TakeWordBeforeSpace(w[1..], rest);
    }
  }

  /** The first word of a text that starts with a word and a space is
      that word. */
  lemma SplitFirstWord(w: string, rest: string)
    requires w != [] && forall i :: 0 <= i < |w| ==> !IsSpace(w[i])
    ensures Split(w + " " + rest) != [] && Split(w + " " + rest)[0] == w
  {
    TakeWordBeforeSpace(w, rest);
  }

  function LowerChar(c: char): char {
    if 'A' <= c <= 'Z' then (c as int + 32) as char else c
  }

  /** `s.lower()` on ASCII letters. */
  function Lower(s: string): (r: string)
    ensures |r| == |s| && forall i :: 0 <= i < |s| ==> r[i] == LowerChar(s[i])
  {
    seq(|s|, i requires 0 <= i < |s| => LowerChar(s[i]))
  }

  /** Lower-casing leaves no upper-case ASCII letter, keeps every other
      character, and so changes nothing the second time. */
  lemma LowerMeaning(s: string)
    ensures forall i :: 0 <= i < |s| ==> !('A' <= Lower(s)[i] <= 'Z')
    ensures forall i :: 0 <= i < |s| && !('A' <= s[i] <= 'Z') ==> Lower(s)[i] == s[i]
    ensures Lower(Lower(s)) == Lower(s)
  {
  }
}
