/**
 * natural_sort of simulate.py: a stable sort of file names by a key that
 * splits each name into maximal digit runs and the text between them,
 * compares digit runs as integers and text after lower-casing.
 */
module Simulate {
  import opened Ascii

  /** One element of the key list: a lower-cased text run or the int() of a digit run. */
  datatype Chunk = Text(s: string) | Num(n: nat)

  /** The text run at the front of s: everything before its first digit. */
  function Head(s: string): (h: string)
    ensures |h| <= |s| && h == s[..|h|]
    ensures forall i :: 0 <= i < |h| ==> !IsDigit(h[i])
  {
    s[..TextLen(s)]
  }

  /** The digit run that follows the head, when there is one. */
  function Digits(s: string): (d: string)
    requires |Head(s)| < |s|
    ensures d != [] && AllDigits(d)
    ensures |Head(s)| + |d| <= |s| && d == s[|Head(s)|..|Head(s)| + |d|]
  {
    var rest := s[TextLen(s)..];
    assert IsDigit(rest[0]);
    rest[..DigitLen(rest)]
  }

  /** What follows the head and its digit run; it is empty or starts with a non-digit. */
  function Remainder(s: string): (r: string)
    requires |Head(s)| < |s|
    ensures |r| < |s| && r == s[|Head(s)| + |Digits(s)|..]
    ensures r == [] || !IsDigit(r[0])
  {
    s[|Head(s)| + |Digits(s)|..]
  }

  /**
   * The key of a name, as re.split on the capturing pattern of digit runs
   * produces it: text, number, text, ..., text, each text run lower-cased and
   * each digit run converted to its integer value.
   */
  function Key(s: string): (k: seq<Chunk>)
    ensures |k| >= 1 && k[0].Text?
    decreases |s|
  {
    if |Head(s)| == |s| then [Text(Lower(s))]
    else [Text(Lower(Head(s))), Num(Value(Digits(s)))] + Key(Remainder(s))
  }

  /** Python's < on str: lexicographic on characters, a proper prefix first. */
  predicate StrLt(a: string, b: string) {
    if a == [] then b != [] else b != [] && (a[0] < b[0] || (a[0] == b[0] && StrLt(a[1..], b[1..])))
  }

  /**
   * Python's < on two key elements. Text against a number raises a TypeError
   * in Python; keys never put the two kinds at the same index (KeyAlternates),
   * so that case is unreachable, and the model orders text first.
   */
  predicate ChunkLt(a: Chunk, b: Chunk) {
    match (a, b)
    case (Text(x), Text(y)) => StrLt(x, y)
    case (Num(x), Num(y)) => x < y
    case (Text(_), Num(_)) => true
    case (Num(_), Text(_)) => false
  }

  /** Python's < on lists: the first differing element decides, a proper prefix first. */
  predicate KeyLt(a: seq<Chunk>, b: seq<Chunk>) {
    if a == [] then b != [] else b != [] && (ChunkLt(a[0], b[0]) || (a[0] == b[0] && KeyLt(a[1..], b[1..])))
  }

  lemma {:induction false} StrLtIrreflexive(a: string)
    ensures !StrLt(a, a)
  {
    if a != [] {
      StrLtIrreflexive(a[1..]);
    }
  }

  lemma {:induction false} StrLtTransitive(a: string, b: string, c: string)
    requires StrLt(a, b) && StrLt(b, c)
    ensures StrLt(a, c)
  {
    if a != [] && a[0] == b[0] && b[0] == c[0] {
      StrLtTransitive(a[1..], b[1..], c[1..]);
    }
  }

  lemma ChunkLtIrreflexive(a: Chunk)
    ensures !ChunkLt(a, a)
  {
    if a.Text? {
      StrLtIrreflexive(a.s);
    }
  }

  lemma ChunkLtTransitive(a: Chunk, b: Chunk, c: Chunk)
    requires ChunkLt(a, b) && ChunkLt(b, c)
    ensures ChunkLt(a, c)
  {
    if a.Text? && b.Text? && c.Text? {
      StrLtTransitive(a.s, b.s, c.s);
    }
  }

  lemma {:induction false} KeyLtIrreflexive(a: seq<Chunk>)
    ensures !KeyLt(a, a)
  {
    if a != [] {
      ChunkLtIrreflexive(a[0]);
      KeyLtIrreflexive(a[1..]);
    }
  }

  lemma {:induction false} KeyLtTransitive(a: seq<Chunk>, b: seq<Chunk>, c: seq<Chunk>)
    requires KeyLt(a, b) && KeyLt(b, c)
    ensures KeyLt(a, c)
  {
    if a != [] {
      if ChunkLt(a[0], b[0]) && ChunkLt(b[0], c[0]) {
        ChunkLtTransitive(a[0], b[0], c[0]);
      } else if a[0] == b[0] && b[0] == c[0] {
        KeyLtTransitive(a[1..], b[1..], c[1..]);
      }
    }
  }

  lemma {:induction false} KeyLtAsymmetric(a: seq<Chunk>, b: seq<Chunk>)
    ensures KeyLt(a, b) ==> !KeyLt(b, a)
  {
    if a != [] && b != [] {
      ChunkLtIrreflexive(a[0]);
      if ChunkLt(a[0], b[0]) && ChunkLt(b[0], a[0]) {
        ChunkLtTransitive(a[0], b[0], a[0]);
      }
      KeyLtAsymmetric(a[1..], b[1..]);
    }
  }

  lemma {:induction false} StrLtTotal(a: string, b: string)
    ensures a == b || StrLt(a, b) || StrLt(b, a)
  {
    if a != [] && b != [] && a[0] == b[0] {
      StrLtTotal(a[1..], b[1..]);
      assert a == [a[0]] + a[1..] && b == [b[0]] + b[1..];
    }
  }

  lemma ChunkLtTotal(a: Chunk, b: Chunk)
    ensures a == b || ChunkLt(a, b) || ChunkLt(b, a)
  {
    if a.Text? && b.Text? {
      StrLtTotal(a.s, b.s);
    }
  }

  /** Python's list order on keys is a strict total order. */
  lemma {:induction false} KeyLtTotal(a: seq<Chunk>, b: seq<Chunk>)
    ensures a == b || KeyLt(a, b) || KeyLt(b, a)
  {
    if a != [] && b != [] {
      ChunkLtTotal(a[0], b[0]);
      if a[0] == b[0] {
        KeyLtTotal(a[1..], b[1..]);
        assert a == [a[0]] + a[1..] && b == [b[0]] + b[1..];
      }
    }
  }

  /** If a < c then b lies above a or below c, whatever b is. */
  lemma KeyLtSplit(a: seq<Chunk>, b: seq<Chunk>, c: seq<Chunk>)
    ensures KeyLt(a, c) ==> KeyLt(a, b) || KeyLt(b, c)
  {
    KeyLtTotal(a, b);
    if KeyLt(b, a) && KeyLt(a, c) {
      KeyLtTransitive(b, a, c);
    }
  }

  /**
   * Inserts x after the last element whose key is not greater than x's: the
   * elements with a greater key at the end of s stay after x.
   */
  function Insert(x: string, s: seq<string>, key: string -> seq<Chunk>): (r: seq<string>)
    ensures multiset(r) == multiset(s) + multiset{x}
  {
    if s == [] || !KeyLt(key(x), key(s[|s| - 1])) then s + [x]
    else
      assert s == s[..|s| - 1] + [s[|s| - 1]];
      Insert(x, s[..|s| - 1], key) + [s[|s| - 1]]
  }

  /**
   * sorted(l, key=key), as a stable insertion sort: each element is inserted
   * after the ones before it in the input that have an equal key. The output
   * is a permutation of the input.
   */
  function SortedBy(l: seq<string>, key: string -> seq<Chunk>): (r: seq<string>)
    ensures multiset(r) == multiset(l)
  {
    if l == [] then []
    else
      assert l == l[..|l| - 1] + [l[|l| - 1]];
      Insert(l[|l| - 1], SortedBy(l[..|l| - 1], key), key)
  }

  /** natural_sort: sorted with the digit-run key. */
  function NaturalSort(l: seq<string>): (r: seq<string>)
    ensures multiset(r) == multiset(l)
  {
    SortedBy(l, Key)
  }

  /** No element's key is smaller than the key of an element before it. */
  predicate Ordered(s: seq<string>, key: string -> seq<Chunk>) {
    forall i, j :: 0 <= i < j < |s| ==> !KeyLt(key(s[j]), key(s[i]))
  }

  lemma {:induction false} InsertOrdered(x: string, s: seq<string>, key: string -> seq<Chunk>)
    requires Ordered(s, key)
    ensures Ordered(Insert(x, s, key), key)
  {
    if s == [] {
    } else if !KeyLt(key(x), key(s[|s| - 1])) {
      var r := s + [x];
      forall i | 0 <= i < |s|
        ensures !KeyLt(key(x), key(s[i]))
      {
        KeyLtSplit(key(x), key(s[|s| - 1]), key(s[i]));
      }
      assert forall i :: 0 <= i < |s| ==> r[i] == s[i];
    } else {
      var init, last := s[..|s| - 1], s[|s| - 1];
      assert Ordered(init, key);
      InsertOrdered(x, init, key);
      var t := Insert(x, init, key);
      var r := t + [last];
      forall i | 0 <= i < |t|
        ensures !KeyLt(key(last), key(t[i]))
      {
        assert t[i] in multiset(t);
        if t[i] == x {
          KeyLtAsymmetric(key(x), key(last));
        } else {
          assert t[i] in init;
        }
      }
      forall i, j | 0 <= i < j < |r|
        ensures !KeyLt(key(r[j]), key(r[i]))
      {
        if j < |t| {
          assert r[i] == t[i] && r[j] == t[j];
        }
      }
    }
  }

  /** The output is ordered by key. */
  lemma {:induction false} SortedByOrdered(l: seq<string>, key: string -> seq<Chunk>)
    ensures Ordered(SortedBy(l, key), key)
  {
    if l != [] {
      SortedByOrdered(l[..|l| - 1], key);
      InsertOrdered(l[|l| - 1], SortedBy(l[..|l| - 1], key), key);
    }
  }

  /** The elements of s whose key is k, in their order in s. */
  function WithKey(s: seq<string>, key: string -> seq<Chunk>, k: seq<Chunk>): seq<string> {
    if s == [] then [] else WithKey(s[..|s| - 1], key, k) + (if key(s[|s| - 1]) == k then [s[|s| - 1]] else [])
  }

  /** Inserting x puts it after every element with the same key, whatever the order of s. */
  lemma {:induction false} WithKeyInsert(x: string, s: seq<string>, key: string -> seq<Chunk>, k: seq<Chunk>)
    ensures WithKey(Insert(x, s, key), key, k) == WithKey(s, key, k) + (if key(x) == k then [x] else [])
  {
    if s == [] || !KeyLt(key(x), key(s[|s| - 1])) {
      assert Insert(x, s, key) == s + [x];
      WithKeySnoc(s, x, key, k);
    } else {
      var init, last := s[..|s| - 1], s[|s| - 1];
      var t := Insert(x, init, key);
      assert Insert(x, s, key) == t + [last];
      assert s == init + [last];
      WithKeyInsert(x, init, key, k);
      WithKeySnoc(t, last, key, k);
      WithKeySnoc(init, last, key, k);
      KeyLtIrreflexive(key(x));
      var xs := if key(x) == k then [x] else [];
      var ls := if key(last) == k then [last] else [];
      if key(x) == k {
        assert ls == [];
      } else {
        assert xs == [];
      }
    }
  }

  /** Appending one element extends the elements with key k by it exactly when its key is k. */
  lemma WithKeySnoc(s: seq<string>, y: string, key: string -> seq<Chunk>, k: seq<Chunk>)
    ensures WithKey(s + [y], key, k) == WithKey(s, key, k) + (if key(y) == k then [y] else [])
  {
    assert (s + [y])[..|s|] == s;
  }

  /**
   * sorted is stable: for every key, the elements with that key appear in
   * the output in the order they had in the input.
   */
  lemma {:induction false} SortedByStable(l: seq<string>, key: string -> seq<Chunk>, k: seq<Chunk>)
    ensures WithKey(SortedBy(l, key), key, k) == WithKey(l, key, k)
  {
    if l != [] {
      SortedByStable(l[..|l| - 1], key, k);
      WithKeyInsert(l[|l| - 1], SortedBy(l[..|l| - 1], key), key, k);
    }
  }

  /** natural_sort returns its input in key order, equal keys in input order. */
  lemma NaturalSortOrderedAndStable(l: seq<string>, k: seq<Chunk>)
    ensures Ordered(NaturalSort(l), Key)
    ensures WithKey(NaturalSort(l), Key, k) == WithKey(l, Key, k)
  {
    SortedByOrdered(l, Key);
    SortedByStable(l, Key, k);
  }

  /** Text first and last, and text and numbers alternating in between. */
  predicate Alternating(k: seq<Chunk>) {
    |k| >= 1 && k[0].Text? && k[|k| - 1].Text? &&
    forall i :: 0 <= i < |k| - 1 ==> (k[i].Text? <==> k[i + 1].Num?)
  }

  /**
   * Keys alternate text and numbers, starting and ending with text (re.split
   * with a capturing group), so their length is odd.
   */
  lemma {:induction false} KeyAlternates(s: string)
    ensures Alternating(Key(s))
    decreases |s|
  {
    if |Head(s)| < |s| {
      var k := Key(Remainder(s));
      KeyAlternates(Remainder(s));
      var key := [Text(Lower(Head(s))), Num(Value(Digits(s)))] + k;
      assert Key(s) == key;
      forall i | 1 <= i < |key| - 1
        ensures key[i].Text? <==> key[i + 1].Num?
      {
        assert key[i + 1] == k[i - 1];
      }
    }
  }

  /**
   * Two keys compared element by element always meet elements of the same
   * kind, so the comparison of text with a number never happens.
   */
  lemma {:induction false} SameKindAtSameIndex(a: seq<Chunk>, b: seq<Chunk>, i: nat)
    requires Alternating(a) && Alternating(b)
    requires i < |a| && i < |b|
    ensures a[i].Text? == b[i].Text?
  {
    if i > 0 {
      SameKindAtSameIndex(a, b, i - 1);
    }
  }

  lemma KeysMeetSameKind(x: string, y: string, i: nat)
    requires i < |Key(x)| && i < |Key(y)|
    ensures Key(x)[i].Text? == Key(y)[i].Text?
  {
    KeyAlternates(x);
    KeyAlternates(y);
    SameKindAtSameIndex(Key(x), Key(y), i);
  }

  /** The key splits a text run, a digit run and whatever follows exactly at the run boundaries. */
  lemma KeyOfRuns(t: string, d: string, r: string)
    requires forall i :: 0 <= i < |t| ==> !IsDigit(t[i])
    requires d != [] && AllDigits(d)
    requires r == [] || !IsDigit(r[0])
    ensures Key(t + d + r) == [Text(Lower(t)), Num(Value(d))] + Key(r)
  {
    SplitOfRuns(t, d, r);
  }

  /** Head, Digits and Remainder take a text run, a digit run and the rest apart again. */
  lemma SplitOfRuns(t: string, d: string, r: string)
    requires forall i :: 0 <= i < |t| ==> !IsDigit(t[i])
    requires d != [] && AllDigits(d)
    requires r == [] || !IsDigit(r[0])
    ensures |Head(t + d + r)| < |t + d + r|
    ensures Head(t + d + r) == t && Digits(t + d + r) == d && Remainder(t + d + r) == r
  {
    var s := t + d + r;
    assert s == t + (d + r);
    TextLenOfRun(t, d + r);
    assert Head(s) == t;
    assert s[|t|..] == d + r;
    DigitLenOfRun(d, r);
  }

  /** Digit runs compare as integers: Epoch_2 comes before Epoch_10. */
  lemma DigitRunsCompareNumerically(t: string, d1: string, r1: string, d2: string, r2: string)
    requires forall i :: 0 <= i < |t| ==> !IsDigit(t[i])
    requires d1 != [] && AllDigits(d1) && d2 != [] && AllDigits(d2)
    requires r1 == [] || !IsDigit(r1[0])
    requires r2 == [] || !IsDigit(r2[0])
    requires Value(d1) < Value(d2)
    ensures KeyLt(Key(t + d1 + r1), Key(t + d2 + r2))
  {
    KeyOfRuns(t, d1, r1);
    KeyOfRuns(t, d2, r2);
    NumberDecides(Text(Lower(t)), Value(d1), Key(r1), Value(d2), Key(r2));
  }

  /** After an equal first element, a smaller number decides the comparison. */
  lemma NumberDecides(c: Chunk, x: nat, ra: seq<Chunk>, y: nat, rb: seq<Chunk>)
    requires x < y
    ensures KeyLt([c, Num(x)] + ra, [c, Num(y)] + rb)
  {
    var a, b := [c, Num(x)] + ra, [c, Num(y)] + rb;
    ChunkLtIrreflexive(c);
    assert a[1..][0] == Num(x) && b[1..][0] == Num(y);
  }

  /**
   * Digit runs enter the key only through their integer value, so leading
   * zeros are ignored: a007 and a7 have equal keys.
   */
  lemma EqualValuesEqualKeys(t: string, d1: string, d2: string, r: string)
    requires forall i :: 0 <= i < |t| ==> !IsDigit(t[i])
    requires d1 != [] && AllDigits(d1) && d2 != [] && AllDigits(d2)
    requires r == [] || !IsDigit(r[0])
    requires Value(d1) == Value(d2)
    ensures Key(t + d1 + r) == Key(t + d2 + r)
  {
    KeyOfRuns(t, d1, r);
    KeyOfRuns(t, d2, r);
  }

  lemma EpochTwoBeforeTen()
    ensures KeyLt(Key("Epoch_2"), Key("Epoch_10"))
  {
    assert Value("2") == 2;
    assert Value("10") == 10 by {
      assert "10"[..1] == "1";
    }
    assert "Epoch_2" == "Epoch_" + "2" + "";
    assert "Epoch_10" == "Epoch_" + "10" + "";
    DigitRunsCompareNumerically("Epoch_", "2", "", "10", "");
  }

  lemma EpochsSortNumerically()
    ensures NaturalSort(["Epoch_10", "Epoch_2"]) == ["Epoch_2", "Epoch_10"]
  {
    var l := ["Epoch_10", "Epoch_2"];
    assert l[..1] == ["Epoch_10"] && l[..1][..0] == [];
    assert SortedBy(l[..1], Key) == Insert("Epoch_10", [], Key) == ["Epoch_10"];
    EpochTwoBeforeTen();
    assert Insert("Epoch_2", ["Epoch_10"], Key) == Insert("Epoch_2", [], Key) + ["Epoch_10"];
    assert Insert("Epoch_2", [], Key) == ["Epoch_2"];
  }

  lemma LeadingZerosExample()
    ensures Key("a007") == Key("a7")
  {
    LeadingZero("7");
    LeadingZero("07");
    assert "a007" == "a" + "007" + "";
    assert "a7" == "a" + "7" + "";
    EqualValuesEqualKeys("a", "007", "7", "");
  }

  /** Lower-casing a name with a digit run lower-cases its digit run and remainder. */
  lemma LowerSplit(s: string)
    requires |Head(s)| < |s|
    ensures |Head(Lower(s))| == |Head(s)|
    ensures Digits(Lower(s)) == Digits(s) && Remainder(Lower(s)) == Lower(Remainder(s))
  {
    var ls := Lower(s);
    forall i | 0 <= i < |s| ensures IsDigit(ls[i]) == IsDigit(s[i]) {
      LowerCharProperties(s[i]);
    }
    SplitDependsOnDigitsOnly(ls, s);
    var t := TextLen(s);
    var rest, lrest := s[t..], ls[t..];
    assert lrest == Lower(rest);
    forall i | 0 <= i < |rest| ensures IsDigit(lrest[i]) == IsDigit(rest[i]) {
      LowerCharProperties(rest[i]);
    }
    SplitDependsOnDigitsOnly(lrest, rest);
    LowerOfDigits(Digits(s));
    assert Digits(ls) == Lower(Digits(s));
  }

  /** Text runs are compared after lower-casing: a name and its lower-cased form have the same key. */
  lemma {:induction false} KeyIgnoresCase(s: string)
    ensures Key(Lower(s)) == Key(s)
    decreases |s|
  {
    var ls := Lower(s);
    forall i | 0 <= i < |s| ensures IsDigit(ls[i]) == IsDigit(s[i]) {
      LowerCharProperties(s[i]);
    }
    SplitDependsOnDigitsOnly(ls, s);
    var t := TextLen(s);
    assert Head(ls) == Lower(Head(s));
    LowerIdempotent(Head(s));
    if t == |s| {
      LowerIdempotent(s);
    } else {
      LowerSplit(s);
      KeyIgnoresCase(Remainder(s));
    }
  }
}
