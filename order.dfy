/**
 * Byte-wise string order (Go's `<` on strings) and the sorting of a set of
 * table names that sort.Strings performs on the keys of the per-table
 * change counters.
 */
module Order {

  /** Lexicographic order on character codes; a proper prefix comes first. */
  predicate Less(a: string, b: string)
    decreases |a|
  {
    if |b| == 0 then false
    else if |a| == 0 then true
    else if a[0] != b[0] then a[0] < b[0]
    else Less(a[1..], b[1..])
  }

  lemma {:induction false} LessIrreflexive(a: string)
    ensures !Less(a, a)
  {
    if |a| > 0 {
      LessIrreflexive(a[1..]);
    }
  }

  lemma {:induction false} LessAsymmetric(a: string, b: string)
    requires Less(a, b)
    ensures !Less(b, a)
  {
    if |a| > 0 && |b| > 0 && a[0] == b[0] {
      LessAsymmetric(a[1..], b[1..]);
    }
  }

  lemma {:induction false} LessTransitive(a: string, b: string, c: string)
    requires Less(a, b) && Less(b, c)
    ensures Less(a, c)
  {
    if |a| > 0 && |b| > 0 && |c| > 0 && a[0] == b[0] && b[0] == c[0] {
      LessTransitive(a[1..], b[1..], c[1..]);
    }
  }

  lemma {:induction false} LessTotal(a: string, b: string)
    requires a != b
    ensures Less(a, b) || Less(b, a)
  {
    if |a| > 0 && |b| > 0 && a[0] == b[0] {
      assert a == [a[0]] + a[1..] && b == [b[0]] + b[1..];
      LessTotal(a[1..], b[1..]);
    }
  }

  /** Strictly ascending: sorted and without duplicates. */
  predicate Increasing(s: seq<string>)
  {
    forall i, j :: 0 <= i < j < |s| ==> Less(s[i], s[j])
  }

  ghost predicate IsLeast(m: string, s: set<string>)
  {
    m in s && forall x :: x in s && x != m ==> Less(m, x)
  }

  lemma {:induction false} LeastExists(s: set<string>)
    requires s != {}
    ensures exists m :: IsLeast(m, s)
    decreases s
  {
    var y :| y in s;
    if s == {y} {
      assert IsLeast(y, s);
    } else {
      LeastExists(s - {y});
      var m :| IsLeast(m, s - {y});
      if Less(y, m) {
        forall x | x in s && x != y
          ensures Less(y, x)
        {
          if x != m {
            LessTransitive(y, m, x);
          }
        }
        assert IsLeast(y, s);
      } else {
        LessTotal(y, m);
        assert IsLeast(m, s);
      }
    }
  }

  lemma LeastUnique(s: set<string>, m1: string, m2: string)
    requires IsLeast(m1, s) && IsLeast(m2, s)
    ensures m1 == m2
  {
    if m1 != m2 {
      LessAsymmetric(m1, m2);
    }
  }

  ghost function Least(s: set<string>): (m: string)
    requires s != {}
    ensures IsLeast(m, s)
  {
    LeastExists(s);
    var m :| IsLeast(m, s); m
  }

  /** The elements of `s` in ascending order: what sort.Strings yields. */
  ghost function SortedSeq(s: set<string>): seq<string>
    decreases s
  {
    if s == {} then [] else var m := Least(s); [m] + SortedSeq(s - {m})
  }

  lemma {:induction false} SortedSeqSpec(s: set<string>)
    ensures Increasing(SortedSeq(s))
    ensures |SortedSeq(s)| == |s|
    ensures forall x :: x in SortedSeq(s) <==> x in s
    decreases s
  {
    if s != {} {
      var m := Least(s);
      var rest := SortedSeq(s - {m});
      SortedSeqSpec(s - {m});
      assert SortedSeq(s) == [m] + rest;
      forall i, j | 0 <= i < j < |[m] + rest|
        ensures Less(([m] + rest)[i], ([m] + rest)[j])
      {
        if i > 0 {
          assert ([m] + rest)[i] == rest[i - 1] && ([m] + rest)[j] == rest[j - 1];
        } else {
          assert ([m] + rest)[j] == rest[j - 1];
          assert rest[j - 1] in s - {m};
        }
      }
    }
  }

  /** The least element of a non-empty set, found by one pass over it. */
  method MinOf(s: set<string>) returns (m: string)
    requires s != {}
    ensures m in s && forall x :: x in s && x != m ==> Less(m, x)
  {
    m :| m in s;
    var todo := s - {m};
    while todo != {}
      invariant todo <= s && m in s && m !in todo
      invariant forall x :: x in s && x !in todo && x != m ==> Less(m, x)
      decreases todo
    {
      var x :| x in todo;
      if Less(x, m) {
        forall y | y in s && y !in todo - {x} && y != x
          ensures Less(x, y)
        {
          if y != m {
            LessTransitive(x, m, y);
          }
        }
        m := x;
      } else {
        LessTotal(x, m);
      }
      todo := todo - {x};
    }
  }

  /** The elements of `s`, ascending, each once. */
  method SortedKeys(s: set<string>) returns (ks: seq<string>)
    ensures ks == SortedSeq(s)
    ensures Increasing(ks) && |ks| == |s|
    ensures forall x :: x in ks <==> x in s
  {
    ks := [];
    var rest := s;
    while rest != {}
      invariant rest <= s
      invariant ks + SortedSeq(rest) == SortedSeq(s)
      decreases rest
    {
      var m := MinOf(rest);
      LeastUnique(rest, m, Least(rest));
      assert SortedSeq(rest) == [m] + SortedSeq(rest - {m});
      ks := ks + [m];
      rest := rest - {m};
    }
    SortedSeqSpec(s);
  }
}
