/**
 * The values a commit attribute can take, as the query algebra sees them:
 * `None`, a string (a tag compares equal to its name, so a tag is its name
 * here, though Python's `match=True` never selects a tag), a boolean (`is_valid`, `is_parsed`) or a parsed date.
 * Python orders two values only when they are of the same kind; comparing
 * across kinds raises `TypeError`.
 */
module Values {

  datatype Value = VNone | VStr(s: string) | VBool(b: bool) | VDate(stamp: int)

  datatype Kind = KNone | KStr | KBool | KDate

  function KindOf(v: Value): Kind {
    match v
    case VNone => KNone
    case VStr(_) => KStr
    case VBool(_) => KBool
    case VDate(_) => KDate
  }

  /** Python's `<` on `str`: lexicographic by code point. */
  predicate StrLess(a: string, b: string)
    decreases |a|
  {
    if |a| == 0 then |b| > 0
    else if |b| == 0 then false
    else if a[0] != b[0] then a[0] < b[0]
    else StrLess(a[1..], b[1..])
  }

  /** Python's `<` between two values of the same kind; false across kinds. */
  predicate Less(a: Value, b: Value) {
    match (a, b)
    case (VStr(x), VStr(y)) => StrLess(x, y)
    case (VBool(x), VBool(y)) => !x && y
    case (VDate(x), VDate(y)) => x < y
    case _ => false
  }

  lemma {:induction false} StrLessIrreflexive(a: string)
    ensures !StrLess(a, a)
    decreases |a|
  {
    if |a| > 0 {
      StrLessIrreflexive(a[1..]);
    }
  }

  lemma {:induction false} StrLessTransitive(a: string, b: string, c: string)
    requires StrLess(a, b) && StrLess(b, c)
    ensures StrLess(a, c)
    decreases |a|
  {
    if |a| > 0 && a[0] == b[0] && b[0] == c[0] {
      StrLessTransitive(a[1..], b[1..], c[1..]);
    }
  }

  lemma {:induction false} StrLessTotal(a: string, b: string)
    requires a != b
    ensures StrLess(a, b) || StrLess(b, a)
    decreases |a|
  {
    if |a| > 0 && |b| > 0 && a[0] == b[0] {
      assert a == [a[0]] + a[1..] && b == [b[0]] + b[1..];
      StrLessTotal(a[1..], b[1..]);
    }
  }

  lemma LessIrreflexive(a: Value)
    ensures !Less(a, a)
  {
    if a.VStr? {
      StrLessIrreflexive(a.s);
    }
  }

  lemma LessTransitive(a: Value, b: Value, c: Value)
    requires Less(a, b) && Less(b, c)
    ensures Less(a, c)
  {
    if a.VStr? {
      StrLessTransitive(a.s, b.s, c.s);
    }
  }

  /** Two different values of one kind other than `None` are ordered one way or the other. */
  lemma LessTotal(a: Value, b: Value)
    requires KindOf(a) == KindOf(b) != KNone && a != b
    ensures Less(a, b) || Less(b, a)
  {
    if a.VStr? {
      StrLessTotal(a.s, b.s);
    }
  }

  /** All values of `s` are of the one kind `k`, which is not `None`. */
  predicate AllOfKind(s: seq<Value>, k: Kind) {
    k != KNone && forall i :: 0 <= i < |s| ==> KindOf(s[i]) == k
  }

  /** Python can sort `s` without raising: no `None` and no two kinds. */
  predicate Sortable(s: seq<Value>) {
    |s| == 0 || AllOfKind(s, KindOf(s[0]))
  }

  predicate Ascending(s: seq<Value>) {
    forall i, j :: 0 <= i < j < |s| ==> !Less(s[j], s[i])
  }

  function Insert(x: Value, s: seq<Value>): (r: seq<Value>)
    ensures multiset(r) == multiset(s) + multiset{x} && |r| == |s| + 1
  {
    if |s| == 0 then [x]
    else if Less(s[0], x) then
      assert s == [s[0]] + s[1..];
      [s[0]] + Insert(x, s[1..])
    else [x] + s
  }

  /** Inserting into an ascending sequence of one kind keeps it ascending and of that kind. */
  lemma {:induction false} InsertAscending(x: Value, s: seq<Value>)
    requires AllOfKind(s, KindOf(x)) && Ascending(s)
    ensures AllOfKind(Insert(x, s), KindOf(x)) && Ascending(Insert(x, s))
  {
    var r := Insert(x, s);
    if |s| == 0 {
    } else if Less(s[0], x) {
      var t := Insert(x, s[1..]);
      InsertAscending(x, s[1..]);
      assert r == [s[0]] + t;
      forall j | 0 <= j < |t|
        ensures !Less(t[j], s[0])
      {
        assert t[j] in multiset(s[1..]) + multiset{x};
        if t[j] in multiset(s[1..]) {
          var m :| 0 <= m < |s[1..]| && s[1..][m] == t[j];
          assert s[m + 1] == t[j];
        } else if Less(t[j], s[0]) {
          LessTransitive(s[0], x, s[0]);
          LessIrreflexive(s[0]);
        }
      }
    } else {
      assert r == [x] + s;
      forall j | 0 <= j < |s|
        ensures !Less(s[j], x)
      {
        if Less(s[j], x) && x != s[0] {
          LessTotal(x, s[0]);
          LessTransitive(s[j], x, s[0]);
        }
      }
    }
  }

  /** Python `sorted(s)` (insertion sort; stability is irrelevant as the model sorts distinct keys). */
  function Sort(s: seq<Value>): (r: seq<Value>)
    ensures multiset(r) == multiset(s) && |r| == |s|
  {
    if |s| == 0 then []
    else
      assert s == [s[0]] + s[1..];
      Insert(s[0], Sort(s[1..]))
  }

  /** Sorting values of one kind yields them in ascending order. */
  lemma {:induction false} SortAscending(s: seq<Value>)
    requires Sortable(s)
    ensures Ascending(Sort(s)) && Sortable(Sort(s))
  {
    if |s| > 0 {
      var t := Sort(s[1..]);
      SortAscending(s[1..]);
      assert AllOfKind(t, KindOf(s[0])) by {
        forall i | 0 <= i < |t|
          ensures KindOf(t[i]) == KindOf(s[0])
        {
          assert t[i] in multiset(s[1..]);
        }
      }
      InsertAscending(s[0], t);
    }
  }

  /** `reversed(s)`, what `reverse=True` gives after sorting. */
  function Reverse<T>(s: seq<T>): (r: seq<T>)
    ensures |r| == |s|
    ensures forall i :: 0 <= i < |s| ==> r[i] == s[|s| - 1 - i]
  {
    seq(|s|, i requires 0 <= i < |s| => s[|s| - 1 - i])
  }

  /** Reversing is its own inverse and keeps the elements with their counts. */
  lemma {:induction false} ReverseRoundTrip<T>(s: seq<T>)
    ensures Reverse(Reverse(s)) == s
    ensures multiset(Reverse(s)) == multiset(s)
  {
    if |s| > 0 {
      ReverseRoundTrip(s[1..]);
      assert Reverse(s) == Reverse(s[1..]) + [s[0]];
      assert s == [s[0]] + s[1..];
    }
  }
}
