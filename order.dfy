/** Python's ordering of strings (code point by code point, a proper prefix
    first) and the descending sort used for the post listing,
    sorted(names, reverse=True). */
module Order {

  /** a < b on Python strings. */
  predicate Below(a: string, b: string)
    decreases |a|
  {
    if a == [] then b != []
    else b != [] && (a[0] < b[0] || (a[0] == b[0] && Below(a[1..], b[1..])))
  }

  lemma {:induction false} BelowIrreflexive(a: string)
    ensures !Below(a, a)
    decreases |a|
  {
    if a != [] { BelowIrreflexive(a[1..]); }
  }

  lemma {:induction false} BelowTransitive(a: string, b: string, c: string)
    requires Below(a, b) && Below(b, c)
    ensures Below(a, c)
    decreases |a|
  {
    if a != [] && a[0] == b[0] && b[0] == c[0] {
      BelowTransitive(a[1..], b[1..], c[1..]);
    }
  }

  /** Any two different strings are ordered one way or the other. */
  lemma {:induction false} BelowTotal(a: string, b: string)
    requires a != b
    ensures Below(a, b) || Below(b, a)
    decreases |a|
  {
    if a != [] && b != [] && a[0] == b[0] {
      assert a == [a[0]] + a[1..] && b == [b[0]] + b[1..];
      BelowTotal(a[1..], b[1..]);
    }
  }

  lemma BelowAsymmetric(a: string, b: string)
    requires Below(a, b)
    ensures !Below(b, a)
  {
    if Below(b, a) {
      BelowTransitive(a, b, a);
      BelowIrreflexive(a);
    }
  }

  /** Appending the same text to two strings of equal length keeps their
      order: for dates of one fixed width, file names sort as the dates do. */
  lemma {:induction false} BelowSameLengthAppend(a: string, b: string, ext: string)
    requires |a| == |b|
    ensures Below(a + ext, b + ext) <==> Below(a, b)
    decreases |a|
  {
    if a == [] {
      assert a + ext == ext && b + ext == ext;
      BelowIrreflexive(ext);
    } else {
      assert (a + ext)[1..] == a[1..] + ext;
      assert (b + ext)[1..] == b[1..] + ext;
      BelowSameLengthAppend(a[1..], b[1..], ext);
    }
  }

  /** Every element is at least as large as every later one. */
  predicate Descending(s: seq<string>) {
    forall i, j :: 0 <= i < j < |s| ==> !Below(s[i], s[j])
  }

  /** Every element is larger than every later one. */
  predicate StrictlyDescending(s: seq<string>) {
    forall i, j :: 0 <= i < j < |s| ==> Below(s[j], s[i])
  }

  /** Putting in front an element no later one exceeds keeps the order. */
  lemma DescendingCons(h: string, t: seq<string>)
    requires Descending(t)
    requires forall j :: 0 <= j < |t| ==> !Below(h, t[j])
    ensures Descending([h] + t)
  {
    var r := [h] + t;
    forall i, j | 0 <= i < j < |r| ensures !Below(r[i], r[j]) {
      if i > 0 { assert r[i] == t[i - 1]; }
      assert r[j] == t[j - 1];
    }
  }

  /** Inserts x into a descending sequence, before the first element that is
      smaller than x. */
  function Insert(x: string, s: seq<string>): (r: seq<string>)
    requires Descending(s)
    ensures Descending(r)
    ensures multiset(r) == multiset(s) + multiset{x}
  {
    if s == [] then [x]
    else if !Below(x, s[0]) then
      assert forall j :: 0 < j < |s| ==> !Below(x, s[j]) by {
        forall j | 0 < j < |s| ensures !Below(x, s[j]) {
          if Below(x, s[j]) {
            if s[0] == s[j] { } else {
              BelowTotal(s[0], s[j]);
              BelowTransitive(x, s[j], s[0]);
            }
          }
        }
      }
      DescendingCons(x, s);
      [x] + s
    else
      var rest := Insert(x, s[1..]);
      assert s == [s[0]] + s[1..];
      assert forall j :: 0 <= j < |rest| ==> !Below(s[0], rest[j]) by {
        forall j | 0 <= j < |rest| ensures !Below(s[0], rest[j]) {
          assert rest[j] in multiset(s[1..]) + multiset{x};
          if rest[j] == x {
            BelowAsymmetric(x, s[0]);
          } else {
            assert rest[j] in s[1..];
            var k :| 0 <= k < |s[1..]| && s[1..][k] == rest[j];
            assert s[k + 1] == rest[j];
          }
        }
      }
      DescendingCons(s[0], rest);
      [s[0]] + rest
  }

  /** sorted(s, reverse=True), as an insertion sort. */
  function SortDescending(s: seq<string>): (r: seq<string>)
    ensures Descending(r)
    ensures multiset(r) == multiset(s)
  {
    if s == [] then []
    else
      assert s == [s[0]] + s[1..];
      Insert(s[0], SortDescending(s[1..]))
  }

  /** A descending sequence of distinct strings is strictly descending. */
  lemma DescendingDistinct(s: seq<string>)
    requires Descending(s)
    requires forall x :: multiset(s)[x] <= 1
    ensures StrictlyDescending(s)
  {
    forall i, j | 0 <= i < j < |s| ensures Below(s[j], s[i]) {
      assert s == s[..j] + s[j..];
      assert s[i] in s[..j] && s[j] in s[j..];
      assert multiset(s)[s[i]] == multiset(s[..j])[s[i]] + multiset(s[j..])[s[i]];
      assert s[i] !in multiset(s[j..]);
      BelowTotal(s[i], s[j]);
    }
  }

  lemma HeadIsLargest(s: seq<string>, k: int)
    requires Descending(s) && 0 <= k < |s|
    ensures !Below(s[0], s[k])
  {
    if k == 0 { BelowIrreflexive(s[0]); }
  }

  /** Strings that are not below each other are equal. */
  lemma BelowAntisymmetric(a: string, b: string)
    requires !Below(a, b) && !Below(b, a)
    ensures a == b
  {
    if a != b { BelowTotal(a, b); }
  }

  lemma DescendingTail(s: seq<string>)
    requires Descending(s) && s != []
    ensures Descending(s[1..])
  {
    forall i, j | 0 <= i < j < |s| - 1 ensures !Below(s[1..][i], s[1..][j]) {
      assert s[1..][i] == s[i + 1] && s[1..][j] == s[j + 1];
    }
  }

  lemma MultisetTail(s: seq<string>)
    requires s != []
    ensures multiset(s[1..]) == multiset(s) - multiset{s[0]}
  {
    assert s == [s[0]] + s[1..];
  }

  /** There is only one descending arrangement of a multiset of strings: the
      listing does not depend on the order the directory was read in. */
  lemma {:induction false} DescendingUnique(a: seq<string>, b: seq<string>)
    requires Descending(a) && Descending(b)
    requires multiset(a) == multiset(b)
    ensures a == b
    decreases |a|
  {
    if a != [] {
      assert |b| == |a| by { assert |multiset(a)| == |a| && |multiset(b)| == |b|; }
      assert a[0] in multiset(b);
      assert b[0] in multiset(a);
      var i :| 0 <= i < |b| && b[i] == a[0];
      var j :| 0 <= j < |a| && a[j] == b[0];
      HeadIsLargest(b, i);
      HeadIsLargest(a, j);
      BelowAntisymmetric(a[0], b[0]);
      DescendingTail(a);
      DescendingTail(b);
      MultisetTail(a);
      MultisetTail(b);
      DescendingUnique(a[1..], b[1..]);
      assert a == [a[0]] + a[1..] && b == [b[0]] + b[1..];
    }
  }
}
