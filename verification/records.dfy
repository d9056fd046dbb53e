/**
 A sheet row as the JavaScript components hold it: a plain object whose own
 string keys keep their insertion order. Assigning to a present key keeps its
 place; assigning to a new key appends it; an object spread `{...a, ...b}`
 assigns the keys of `b` over `a` in `b`'s order.
 */
module Records {
  import opened Optional
  import opened Text

  type Row = seq<(string, string)>

  function Keys(row: Row): (ks: seq<string>)
    ensures |ks| == |row|
    ensures forall i :: 0 <= i < |row| ==> ks[i] == row[i].0
  {
    seq(|row|, i requires 0 <= i < |row| => row[i].0)
  }

  /** No key appears twice, as in every JavaScript object. */
  predicate WellFormed(row: Row)
  {
    forall i, j :: 0 <= i < j < |row| ==> row[i].0 != row[j].0
  }

  /** Where `key` sits in the row: the first position holding it, or none. */
  function IndexOf(row: Row, key: string): (r: Option<nat>)
    ensures r.Some? ==> r.value < |row| && row[r.value].0 == key
    ensures r.Some? ==> forall j :: 0 <= j < r.value ==> row[j].0 != key
    ensures r.None? <==> forall j :: 0 <= j < |row| ==> row[j].0 != key
    decreases |row|
  {
    if |row| == 0 then None
    else if row[0].0 == key then Some(0)
    else match IndexOf(row[1..], key)
      case None => None
      case Some(i) => Some(i + 1)
  }

  /** Rows with the same key sequence place every key at the same position. */
  lemma {:induction false} IndexOfSameKeys(a: Row, b: Row, key: string)
    requires Keys(a) == Keys(b)
    ensures IndexOf(a, key) == IndexOf(b, key)
    decreases |a|
  {
    if |a| > 0 {
      assert a[0].0 == Keys(a)[0] == Keys(b)[0] == b[0].0;
      assert Keys(a[1..]) == Keys(b[1..]) by {
        forall j | 0 <= j < |a| - 1 ensures Keys(a[1..])[j] == Keys(b[1..])[j] {
          assert Keys(a[1..])[j] == Keys(a)[j + 1];
          assert Keys(b[1..])[j] == Keys(b)[j + 1];
        }
      }
      IndexOfSameKeys(a[1..], b[1..], key);
    }
  }

  /** The first position holding `key` is the one `IndexOf` reports. */
  lemma IndexOfIs(row: Row, key: string, j: nat)
    requires j < |row| && row[j].0 == key
    requires forall l :: 0 <= l < j ==> row[l].0 != key
    ensures IndexOf(row, key) == Some(j)
  {
  }

  /** Appending a new key leaves every other key where it was. */
  lemma IndexOfAppend(row: Row, key: string, value: string, k: string)
    requires IndexOf(row, key).None?
    ensures IndexOf(row + [(key, value)], k) == if k == key then Some(|row|) else IndexOf(row, k)
  {
    var r := row + [(key, value)];
    if k == key {
      IndexOfIs(r, k, |row|);
    } else if IndexOf(row, k).Some? {
      IndexOfIs(r, k, IndexOf(row, k).value);
    } else {
      assert forall j :: 0 <= j < |r| ==> r[j].0 != k;
    }
  }

  /** `row[key]`: the value stored under `key`, or `undefined`. */
  function Get(row: Row, key: string): (r: Option<string>)
    ensures r.Some? <==> key in Keys(row)
  {
    match IndexOf(row, key)
    case None => None
    case Some(i) => Some(row[i].1)
  }

  /** In a well-formed row, the pair at position `i` is what `Get` finds under its key. */
  lemma GetAt(row: Row, i: nat)
    requires WellFormed(row) && i < |row|
    ensures Get(row, row[i].0) == Some(row[i].1)
  {
    IndexOfIs(row, row[i].0, i);
  }

  /** `{...row, [key]: value}`: a present key is overwritten in place, a new key goes last. */
  function Set(row: Row, key: string, value: string): (r: Row)
    ensures Get(r, key) == Some(value)
    ensures forall k :: k != key ==> Get(r, k) == Get(row, k)
    ensures key in Keys(row) ==> Keys(r) == Keys(row)
    ensures key !in Keys(row) ==> Keys(r) == Keys(row) + [key]
    ensures WellFormed(row) ==> WellFormed(r)
  {
    match IndexOf(row, key)
    case None =>
      var r := row + [(key, value)];
      assert forall k :: IndexOf(r, k) == if k == key then Some(|row|) else IndexOf(row, k) by {
        forall k ensures IndexOf(r, k) == if k == key then Some(|row|) else IndexOf(row, k) {
          IndexOfAppend(row, key, value, k);
        }
      }
      r
    case Some(i) =>
      var r := row[i := (key, value)];
      assert Keys(r) == Keys(row);
      assert forall k :: IndexOf(r, k) == IndexOf(row, k) by {
        forall k ensures IndexOf(r, k) == IndexOf(row, k) {
          IndexOfSameKeys(r, row, k);
        }
      }
      r
  }

  /** Assigning a key the value it already holds changes nothing. */
  lemma SetSame(row: Row, key: string, value: string)
    requires Get(row, key) == Some(value)
    ensures Set(row, key, value) == row
  {
    var i := IndexOf(row, key).value;
    assert row[i := (key, value)] == row;
  }

  /** `{...a, ...b}`: every key of `b`, in `b`'s order, assigned over `a`. */
  function Merge(a: Row, b: Row): Row
    decreases |b|
  {
    if |b| == 0 then a else Merge(Set(a, b[0].0, b[0].1), b[1..])
  }

  lemma KeysTail(b: Row)
    requires |b| > 0
    ensures Keys(b) == [b[0].0] + Keys(b[1..])
    ensures forall k :: k != b[0].0 ==> Get(b, k) == Get(b[1..], k)
  {
  }

  /** A key `b` does not hold keeps the value it had in `a`. */
  lemma {:induction false} MergeGetOther(a: Row, b: Row, k: string)
    requires k !in Keys(b)
    ensures Get(Merge(a, b), k) == Get(a, k)
    decreases |b|
  {
    if |b| > 0 {
      KeysTail(b);
      MergeGetOther(Set(a, b[0].0, b[0].1), b[1..], k);
    }
  }

  /** A key ends up with the value of its last occurrence in `b`. */
  lemma {:induction false} MergeGetLast(a: Row, b: Row, j: nat)
    requires j < |b|
    requires forall l :: j < l < |b| ==> b[l].0 != b[j].0
    ensures Get(Merge(a, b), b[j].0) == Some(b[j].1)
    decreases |b|
  {
    KeysTail(b);
    var a' := Set(a, b[0].0, b[0].1);
    if j == 0 {
      assert b[0].0 !in Keys(b[1..]);
      MergeGetOther(a', b[1..], b[0].0);
    } else {
      assert b[1..][j - 1] == b[j];
      MergeGetLast(a', b[1..], j - 1);
    }
  }

  /** In a well-formed spread, every key of `b` ends up with `b`'s value. */
  lemma MergeGetIn(a: Row, b: Row, k: string)
    requires WellFormed(b) && k in Keys(b)
    ensures Get(Merge(a, b), k) == Get(b, k)
  {
    var j :| 0 <= j < |b| && Keys(b)[j] == k;
    GetAt(b, j);
    MergeGetLast(a, b, j);
  }

  /** Assigning a new key appends it. */
  lemma SetNew(row: Row, key: string, value: string)
    requires key !in Keys(row)
    ensures Set(row, key, value) == row + [(key, value)]
  {
    assert IndexOf(row, key).None?;
  }

  /** Assigning a present key replaces its pair where it stands. */
  lemma SetPresent(row: Row, key: string, value: string, i: nat)
    requires IndexOf(row, key) == Some(i)
    ensures Set(row, key, value) == row[i := (key, value)]
  {
  }

  /** In a row without repeated keys, the first key of the tail is not among the keys before it. */
  lemma WellFormedSplit(a: Row, b: Row)
    requires WellFormed(a + b) && |b| > 0
    ensures b[0].0 !in Keys(a)
  {
    forall j | 0 <= j < |a| ensures a[j].0 != b[0].0 {
      assert (a + b)[j] == a[j] && (a + b)[|a|] == b[0];
    }
  }

  /** Spreading keys `a` lacks just appends them: `{...a, ...b}` is `a` then `b` when no key repeats. */
  lemma {:induction false} MergeAppends(a: Row, b: Row)
    requires WellFormed(a + b)
    ensures Merge(a, b) == a + b
    decreases |b|
  {
    if |b| > 0 {
      WellFormedSplit(a, b);
      SetNew(a, b[0].0, b[0].1);
      assert (a + [b[0]]) + b[1..] == a + b;
      MergeAppends(a + [b[0]], b[1..]);
    }
  }

  /** Spreading never drops a key and keeps a well-formed row well formed. */
  lemma {:induction false} MergeKeeps(a: Row, b: Row)
    ensures forall k :: k in Keys(a) ==> k in Keys(Merge(a, b))
    ensures WellFormed(a) ==> WellFormed(Merge(a, b))
    decreases |b|
  {
    if |b| > 0 {
      MergeKeeps(Set(a, b[0].0, b[0].1), b[1..]);
    }
  }

  /** Two rows with the same keys in the same order whose values differ at most under `key`. */
  predicate AgreeExcept(r1: Row, r2: Row, key: string)
  {
    |r1| == |r2| &&
    forall i :: 0 <= i < |r1| ==> r1[i].0 == r2[i].0 && (r1[i].0 != key ==> r1[i].1 == r2[i].1)
  }

  lemma SetKeepsAgree(r1: Row, r2: Row, key: string, k: string, v: string)
    requires AgreeExcept(r1, r2, key)
    ensures AgreeExcept(Set(r1, k, v), Set(r2, k, v), key)
  {
    assert Keys(r1) == Keys(r2);
    IndexOfSameKeys(r1, r2, k);
    match IndexOf(r1, k)
    case None =>
      SetNew(r1, k, v);
      SetNew(r2, k, v);
    case Some(i) =>
      SetPresent(r1, k, v, i);
      SetPresent(r2, k, v, i);
  }

  lemma {:induction false} MergeKeepsAgree(r1: Row, r2: Row, key: string, b: Row)
    requires AgreeExcept(r1, r2, key)
    ensures AgreeExcept(Merge(r1, b), Merge(r2, b), key)
    decreases |b|
  {
    if |b| > 0 {
      SetKeepsAgree(r1, r2, key, b[0].0, b[0].1);
      MergeKeepsAgree(Set(r1, b[0].0, b[0].1), Set(r2, b[0].0, b[0].1), key, b[1..]);
    }
  }

  /** Overwriting the one key two agreeing rows may differ on makes them equal. */
  lemma SetMakesEqual(r1: Row, r2: Row, key: string, v: string)
    requires AgreeExcept(r1, r2, key)
    requires WellFormed(r1) && key in Keys(r1)
    ensures Set(r1, key, v) == Set(r2, key, v)
  {
    assert Keys(r1) == Keys(r2);
    IndexOfSameKeys(r1, r2, key);
    var i := IndexOf(r1, key).value;
    var s1, s2 := r1[i := (key, v)], r2[i := (key, v)];
    assert Set(r1, key, v) == s1 && Set(r2, key, v) == s2;
    forall j | 0 <= j < |s1| ensures s1[j] == s2[j] {
      if j != i {
        assert r1[j].0 != key;
      }
    }
  }

  /** The header test shared by every lookup: the lower-cased key contains `needle`. */
  predicate KeyMatches(key: string, needle: string)
  {
    Includes(Lower(key), needle)
  }

  /** `Object.keys(row).find(k => k.toLowerCase().includes(needle))`, as a position. */
  function FindKey(row: Row, needle: string): (r: Option<nat>)
    ensures r.Some? ==> r.value < |row| && KeyMatches(row[r.value].0, needle)
    ensures r.Some? ==> forall j :: 0 <= j < r.value ==> !KeyMatches(row[j].0, needle)
    ensures r.None? <==> forall j :: 0 <= j < |row| ==> !KeyMatches(row[j].0, needle)
    decreases |row|
  {
    if |row| == 0 then None
    else if KeyMatches(row[0].0, needle) then Some(0)
    else match FindKey(row[1..], needle)
      case None => None
      case Some(i) => Some(i + 1)
  }

  /** `key && row[key]` for the key `FindKey` found: the value of the first matching column. */
  function Field(row: Row, needle: string): (r: Option<string>)
    ensures r.None? <==> forall j :: 0 <= j < |row| ==> !KeyMatches(row[j].0, needle)
    ensures r.Some? ==> r.value == row[FindKey(row, needle).value].1
  {
    match FindKey(row, needle)
    case None => None
    case Some(i) =>
      assert IndexOf(row, row[i].0) == Some(i);
      Get(row, row[i].0)
  }
}
