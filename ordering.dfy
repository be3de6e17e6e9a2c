/** The order in which `createMultiSigOutputScript` sorts public keys.

    JavaScript's default `Array.prototype.sort` converts each element to a
    string and compares the strings code unit by code unit. A key is an array
    of numbers, so its string is the decimal values of its bytes joined by
    commas: the keys are ordered by that text, not by their bytes. */
module Ordering {
  import opened Chunks

  /** The decimal digits of `n`, most significant first, as `String(n)`. */
  function Dec(n: nat): (s: string)
    ensures |s| >= 1
    ensures forall k :: 0 <= k < |s| ==> '0' <= s[k] <= '9'
    ensures n >= 10 <==> |s| >= 2
  {
    var digit := ['0' + (n % 10) as char];
    if n < 10 then digit else Dec(n / 10) + digit
  }

  /** `String(bytes)`: the decimal values joined by commas. */
  function Key(bytes: seq<byte>): string {
    if bytes == [] then ""
    else if |bytes| == 1 then Dec(bytes[0])
    else Dec(bytes[0]) + "," + Key(bytes[1..])
  }

  lemma {:induction false} DecInjective(a: nat, b: nat)
    requires Dec(a) == Dec(b)
    ensures a == b
  {
    if a >= 10 {
      var da, db := Dec(a), Dec(b);
      assert da[..|da| - 1] == Dec(a / 10);
      assert db[..|db| - 1] == Dec(b / 10);
      DecInjective(a / 10, b / 10);
      assert a % 10 == b % 10 by {
        assert da[|da| - 1] == db[|db| - 1];
      }
    } else {
      assert Dec(a)[0] == Dec(b)[0];
    }
  }

  predicate NoComma(s: string) {
    forall k :: 0 <= k < |s| ==> s[k] != ','
  }

  lemma CommaAfter(s: string, t: string)
    requires NoComma(s)
    ensures (s + "," + t)[|s|] == ','
    ensures forall k :: 0 <= k < |s| ==> (s + "," + t)[k] != ','
  {
  }

  /** Splitting at the first comma is unique. */
  lemma SplitAtComma(s1: string, t1: string, s2: string, t2: string)
    requires NoComma(s1) && NoComma(s2)
    requires s1 + "," + t1 == s2 + "," + t2
    ensures s1 == s2 && t1 == t2
  {
    var x := s1 + "," + t1;
    CommaAfter(s1, t1);
    CommaAfter(s2, t2);
    assert |s1| == |s2|;
    assert s1 == x[..|s1|] == s2;
    assert t1 == x[|s1| + 1..] == t2;
  }

  /** A key's string is empty only for the empty key, has no comma for one
      byte, and has a comma right after the first number otherwise. */
  lemma KeyShape(a: seq<byte>)
    ensures a == [] <==> Key(a) == []
    ensures |a| == 1 ==> NoComma(Key(a))
    ensures |a| >= 2 ==> NoComma(Dec(a[0])) && Key(a) == Dec(a[0]) + "," + Key(a[1..])
  {
    if a != [] {
      var d := Dec(a[0]);
      assert forall k :: 0 <= k < |d| ==> d[k] != ',';
    }
  }

  /** Distinct keys have distinct strings, so the text order is a strict
      total order on keys and the sort has only one possible result. */
  lemma {:induction false} KeyInjective(a: seq<byte>, b: seq<byte>)
    requires Key(a) == Key(b)
    ensures a == b
  {
    KeyShape(a);
    KeyShape(b);
    if |a| == 1 && |b| == 1 {
      DecInjective(a[0], b[0]);
    } else if |a| >= 2 && |b| == 1 {
      CommaAfter(Dec(a[0]), Key(a[1..]));
    } else if |a| == 1 && |b| >= 2 {
      CommaAfter(Dec(b[0]), Key(b[1..]));
    } else if |a| >= 2 && |b| >= 2 {
      SplitAtComma(Dec(a[0]), Key(a[1..]), Dec(b[0]), Key(b[1..]));
      DecInjective(a[0], b[0]);
      KeyInjective(a[1..], b[1..]);
      assert a == [a[0]] + a[1..];
      assert b == [b[0]] + b[1..];
    }
  }

  /** The string comparison `x < y` of JavaScript: the first differing code
      unit decides, and a proper prefix comes first. */
  predicate StrLess(x: string, y: string) {
    if x == [] then y != []
    else if y == [] then false
    else if x[0] != y[0] then x[0] < y[0]
    else StrLess(x[1..], y[1..])
  }

  /** Strings that agree before position `k` and differ there are ordered
      by their code units at `k`. */
  lemma {:induction false} StrLessAt(x: string, y: string, k: nat)
    requires k < |x| && k < |y| && x[..k] == y[..k] && x[k] < y[k]
    ensures StrLess(x, y)
  {
    if k > 0 {
      assert x[0] == x[..k][0] && y[0] == y[..k][0];
      assert x[1..][..k - 1] == x[..k][1..] && y[1..][..k - 1] == y[..k][1..];
      StrLessAt(x[1..], y[1..], k - 1);
    }
  }

  lemma {:induction false} StrLessIrreflexive(x: string)
    ensures !StrLess(x, x)
  {
    if x != [] {
      StrLessIrreflexive(x[1..]);
    }
  }

  lemma {:induction false} StrLessTotal(x: string, y: string)
    ensures x == y || StrLess(x, y) || StrLess(y, x)
  {
    if x != [] && y != [] && x[0] == y[0] {
      StrLessTotal(x[1..], y[1..]);
      if x[1..] == y[1..] {
        assert x == [x[0]] + x[1..];
        assert y == [y[0]] + y[1..];
      }
    }
  }

  lemma {:induction false} StrLessAsymmetric(x: string, y: string)
    ensures !(StrLess(x, y) && StrLess(y, x))
  {
    if x != [] && y != [] && x[0] == y[0] {
      StrLessAsymmetric(x[1..], y[1..]);
    }
  }

  lemma {:induction false} StrLessTransitive(x: string, y: string, z: string)
    requires StrLess(x, y) && StrLess(y, z)
    ensures StrLess(x, z)
  {
    if x != [] && y != [] && z != [] && x[0] == y[0] && y[0] == z[0] {
      StrLessTransitive(x[1..], y[1..], z[1..]);
    }
  }

  /** The comparison the sort uses on two keys. */
  predicate KeyLess(a: seq<byte>, b: seq<byte>) {
    StrLess(Key(a), Key(b))
  }

  lemma KeyLessTotal(a: seq<byte>, b: seq<byte>)
    ensures a == b || KeyLess(a, b) || KeyLess(b, a)
    ensures !(KeyLess(a, b) && KeyLess(b, a))
    ensures !KeyLess(a, a)
  {
    StrLessTotal(Key(a), Key(b));
    StrLessAsymmetric(Key(a), Key(b));
    StrLessIrreflexive(Key(a));
    if Key(a) == Key(b) {
      KeyInjective(a, b);
    }
  }

  predicate Sorted(ks: seq<seq<byte>>) {
    forall i, j :: 0 <= i < j < |ks| ==> ks[i] == ks[j] || KeyLess(ks[i], ks[j])
  }

  /** Inserting `k` before the first key that is not smaller. */
  function Insert(k: seq<byte>, ks: seq<seq<byte>>): seq<seq<byte>> {
    if ks == [] || !KeyLess(ks[0], k) then [k] + ks else [ks[0]] + Insert(k, ks[1..])
  }

  /** `pubkeys.slice().sort()`: a sorted copy; the caller's sequence is a
      value and is never changed. */
  function SortKeys(ks: seq<seq<byte>>): seq<seq<byte>> {
    if ks == [] then [] else Insert(ks[0], SortKeys(ks[1..]))
  }

  lemma {:induction false} InsertPermutes(k: seq<byte>, ks: seq<seq<byte>>)
    ensures multiset(Insert(k, ks)) == multiset(ks) + multiset{k}
    ensures |Insert(k, ks)| == |ks| + 1
  {
    if ks != [] && KeyLess(ks[0], k) {
      InsertPermutes(k, ks[1..]);
      assert ks == [ks[0]] + ks[1..];
    }
  }

  lemma {:induction false} InsertSorted(k: seq<byte>, ks: seq<seq<byte>>)
    requires Sorted(ks)
    ensures Sorted(Insert(k, ks))
  {
    InsertPermutes(k, ks);
    if ks != [] && KeyLess(ks[0], k) {
      InsertSorted(k, ks[1..]);
      var r := Insert(k, ks);
      var t := Insert(k, ks[1..]);
      assert r == [ks[0]] + t;
      InsertPermutes(k, ks[1..]);
      forall j | 1 <= j < |r|
        ensures r[0] == r[j] || KeyLess(r[0], r[j])
      {
        assert r[j] == t[j - 1];
        assert t[j - 1] in multiset(t);
        assert t[j - 1] in multiset(ks[1..]) + multiset{k};
        if t[j - 1] != k {
          var m :| 0 <= m < |ks[1..]| && ks[1..][m] == t[j - 1];
          assert ks[1..][m] == ks[m + 1];
        }
      }
    } else if ks != [] {
      var r := Insert(k, ks);
      forall j | 1 <= j < |r|
        ensures r[0] == r[j] || KeyLess(r[0], r[j])
      {
        assert r[j] == ks[j - 1];
        KeyLessTotal(ks[0], k);
        if k != ks[0] && ks[0] != ks[j - 1] {
          StrLessTransitive(Key(k), Key(ks[0]), Key(ks[j - 1]));
        }
      }
    }
  }

  /** The sort returns a sorted permutation of its input. */
  lemma {:induction false} SortKeysSortsAndPermutes(ks: seq<seq<byte>>)
    ensures Sorted(SortKeys(ks))
    ensures multiset(SortKeys(ks)) == multiset(ks)
    ensures |SortKeys(ks)| == |ks|
  {
    if ks != [] {
      SortKeysSortsAndPermutes(ks[1..]);
      InsertSorted(ks[0], SortKeys(ks[1..]));
      InsertPermutes(ks[0], SortKeys(ks[1..]));
      assert ks == [ks[0]] + ks[1..];
    }
  }

  /** Two sorted sequences with the same elements are equal: every sort
      the runtime might use returns this one result. */
  lemma {:induction false} SortedUnique(a: seq<seq<byte>>, b: seq<seq<byte>>)
    requires Sorted(a) && Sorted(b)
    requires multiset(a) == multiset(b)
    ensures a == b
  {
    assert |a| == |multiset(a)| == |multiset(b)| == |b|;
    if a != [] {
      assert a == [a[0]] + a[1..];
      assert b == [b[0]] + b[1..];
      assert a[0] in multiset(b);
      assert b[0] in multiset(a);
      SmallestFirst(a, b[0]);
      SmallestFirst(b, a[0]);
      KeyLessTotal(a[0], b[0]);
      assert a[0] == b[0];
      assert multiset(a) == multiset{a[0]} + multiset(a[1..]);
      assert multiset(b) == multiset{b[0]} + multiset(b[1..]);
      assert multiset(a[1..]) == multiset(a) - multiset{a[0]};
      assert multiset(b[1..]) == multiset(b) - multiset{b[0]};
      assert multiset(a[1..]) == multiset(b[1..]);
      SortedUnique(a[1..], b[1..]);
    }
  }

  /** In a sorted sequence no element is below the first. */
  lemma SmallestFirst(a: seq<seq<byte>>, x: seq<byte>)
    requires Sorted(a) && a != [] && x in multiset(a)
    ensures x == a[0] || KeyLess(a[0], x)
  {
    var j :| 0 <= j < |a| && a[j] == x;
  }

  /** Without explicit sorting, the chosen key order does not depend on the
      order the keys were given in. */
  lemma SortKeysPermutationInvariant(a: seq<seq<byte>>, b: seq<seq<byte>>)
    requires multiset(a) == multiset(b)
    ensures SortKeys(a) == SortKeys(b)
  {
    SortKeysSortsAndPermutes(a);
    SortKeysSortsAndPermutes(b);
    SortedUnique(SortKeys(a), SortKeys(b));
  }

  /** The text order differs from the byte order: the compressed keys
      02 c8 .. and 02 1e .. are ordered "2,200,.." before "2,30,..", although
      byte 0xc8 is greater than 0x1e. */
  lemma TextOrderIsNotByteOrder(a: seq<byte>, b: seq<byte>)
    requires |a| == |b| == 33 && a[0] == b[0] == 2 && a[1] == 200 && b[1] == 30
    ensures SortKeys([b, a]) == [a, b]
  {
    hide Key;
    hide Dec;
    KeyPrefix(a);
    KeyPrefix(b);
    LeadingDigits();
    StrLessAt(Key(a), Key(b), 2);
    assert SortKeys([a]) == [a];
    assert Insert(b, [a]) == [a] + Insert(b, []);
  }

  /** The first digits of the numbers the text-order example uses. */
  lemma LeadingDigits()
    ensures Dec(2) == "2" && Dec(200)[0] == '2' && Dec(30)[0] == '3'
  {
    assert Dec(20) == Dec(2) + "0";
  }

  /** The text of a key of three or more bytes starts with the first byte's
      digits, a comma and the second byte's first digit. */
  lemma KeyPrefix(a: seq<byte>)
    requires |a| >= 3
    ensures var d := Dec(a[0]);
      |Key(a)| > |d| + 1 && Key(a)[..|d| + 1] == d + "," && Key(a)[|d| + 1] == Dec(a[1])[0]
  {
    KeyShape(a);
    KeyShape(a[1..]);
    var d := Dec(a[0]);
    var t := Key(a[1..]);
    assert Key(a) == d + "," + t;
    assert t == Dec(a[1]) + "," + Key(a[2..]);
    assert (d + "," + t)[..|d| + 1] == d + ",";
  }
}
