/**
 Python's ordering of `str` values and the text of a list of strings as
 `repr` shows it: what `sorted(list(names))` and an f-string produce.
 */
module PyStrings {

  /** `a < b` on Python strings: lexicographic by code point, a proper
      prefix sorting first. */
  predicate StrLess(a: string, b: string)
    decreases |a|
  {
    if |a| == 0 then |b| > 0
    else if |b| == 0 then false
    else if a[0] != b[0] then a[0] < b[0]
    else StrLess(a[1..], b[1..])
  }

  /** Strictly ascending: what `sorted` returns for the elements of a set. */
  predicate StrictlySorted(s: seq<string>) {
    forall i, j :: 0 <= i < j < |s| ==> StrLess(s[i], s[j])
  }

  lemma {:induction false} StrLessIrreflexive(a: string)
    ensures !StrLess(a, a)
    decreases |a|
  {
    if |a| > 0 {
      StrLessIrreflexive(a[1..]);
    }
  }

  lemma {:induction false} StrLessAsymmetric(a: string, b: string)
    ensures StrLess(a, b) ==> !StrLess(b, a)
    decreases |a|
  {
    if |a| > 0 && |b| > 0 && a[0] == b[0] {
      StrLessAsymmetric(a[1..], b[1..]);
    }
  }

  /** The elements of `xs` that belong to `s`, in the order of `xs`. */
  function {:induction false} KeepIn(xs: seq<string>, s: set<string>): (r: seq<string>)
    ensures forall x :: x in r <==> x in xs && x in s
    ensures StrictlySorted(xs) ==> StrictlySorted(r)
    ensures |r| <= |xs|
  {
    if |xs| == 0 then []
    else
      var rest := KeepIn(xs[1..], s);
      assert StrictlySorted(xs) ==> StrictlySorted(xs[1..]) by {
        if StrictlySorted(xs) {
          forall i, j | 0 <= i < j < |xs[1..]| ensures StrLess(xs[1..][i], xs[1..][j]) {
            assert xs[1..][i] == xs[i + 1] && xs[1..][j] == xs[j + 1];
          }
        }
      }
      if xs[0] in s then
        assert StrictlySorted(xs) ==> StrictlySorted([xs[0]] + rest) by {
          if StrictlySorted(xs) {
            forall i, j | 0 <= i < j < |[xs[0]] + rest|
              ensures StrLess(([xs[0]] + rest)[i], ([xs[0]] + rest)[j])
            {
              if i == 0 {
                var y := rest[j - 1];
                assert y in xs[1..];
                var k :| 0 <= k < |xs[1..]| && xs[1..][k] == y;
                assert xs[k + 1] == y;
              }
            }
          }
        }
        [xs[0]] + rest
      else
        rest
  }

  /** A strictly ascending sequence is determined by its elements: so a
      strictly ascending sequence holding exactly the elements of a set is
      the one `sorted(list(set))` returns. */
  lemma {:induction false} SortedIsUnique(a: seq<string>, b: seq<string>)
    requires StrictlySorted(a) && StrictlySorted(b)
    requires forall x :: x in a <==> x in b
    ensures a == b
    decreases |a|
  {
    assert |a| > 0 ==> a[0] in b;
    assert |b| > 0 ==> b[0] in a;
    if |a| > 0 {
      var i :| 0 <= i < |a| && a[i] == b[0];
      var j :| 0 <= j < |b| && b[j] == a[0];
      assert i > 0 ==> StrLess(a[0], b[0]);
      assert j > 0 ==> StrLess(b[0], a[0]);
      StrLessIrreflexive(a[0]);
      StrLessAsymmetric(a[0], b[0]);
      assert a[0] == b[0];
      forall x ensures x in a[1..] <==> x in b[1..] {
        if x in a[1..] {
          var k :| 0 <= k < |a[1..]| && a[1..][k] == x;
          assert StrLess(a[0], a[k + 1]);
          StrLessIrreflexive(a[0]);
          assert x in b && x != b[0];
          var m :| 0 <= m < |b| && b[m] == x;
          assert b[1..][m - 1] == x;
        }
        if x in b[1..] {
          var k :| 0 <= k < |b[1..]| && b[1..][k] == x;
          assert StrLess(b[0], b[k + 1]);
          StrLessIrreflexive(b[0]);
          assert x in a && x != a[0];
          var m :| 0 <= m < |a| && a[m] == x;
          assert a[1..][m - 1] == x;
        }
      }
      assert StrictlySorted(a[1..]) by {
        forall p, q | 0 <= p < q < |a[1..]| ensures StrLess(a[1..][p], a[1..][q]) {
          assert a[1..][p] == a[p + 1] && a[1..][q] == a[q + 1];
        }
      }
      assert StrictlySorted(b[1..]) by {
        forall p, q | 0 <= p < q < |b[1..]| ensures StrLess(b[1..][p], b[1..][q]) {
          assert b[1..][p] == b[p + 1] && b[1..][q] == b[q + 1];
        }
      }
      SortedIsUnique(a[1..], b[1..]);
      assert a == [a[0]] + a[1..] && b == [b[0]] + b[1..];
    }
  }

  /** The `repr` of a list of strings that contain no quote or backslash,
      as an f-string shows it: `['a', 'b']`. */
  function ListRepr(names: seq<string>): string {
    "[" + JoinQuoted(names) + "]"
  }

  function JoinQuoted(names: seq<string>): string {
    if |names| == 0 then ""
    else if |names| == 1 then "'" + names[0] + "'"
    else "'" + names[0] + "', " + JoinQuoted(names[1..])
  }
}
