/** Constructor labels and the key order of the label maps.

    Label maps in the checker are ordered maps keyed by strings: they are
    walked in ascending key order, and that order decides which missing case or
    which failing payload is reported first. Strings are ordered
    lexicographically by code point, which is the byte order of their UTF-8
    encoding. */
module Labels {

  type Label = string

  /** `a` comes no later than `b` in lexicographic order. */
  predicate Below(a: Label, b: Label)
  {
    |a| == 0 || (|b| > 0 && (a[0] < b[0] || (a[0] == b[0] && Below(a[1..], b[1..]))))
  }

  /** `a` comes strictly before `b` in key order. */
  predicate Precedes(a: Label, b: Label)
  {
    Below(a, b) && a != b
  }

  lemma {:induction false} BelowReflexive(a: Label)
    ensures Below(a, a)
  {
    if |a| > 0 { BelowReflexive(a[1..]); }
  }

  lemma {:induction false} BelowAntisymmetric(a: Label, b: Label)
    requires Below(a, b) && Below(b, a)
    ensures a == b
  {
    if |a| > 0 && |b| > 0 {
      BelowAntisymmetric(a[1..], b[1..]);
      assert a == [a[0]] + a[1..] && b == [b[0]] + b[1..];
    }
  }

  lemma {:induction false} BelowTransitive(a: Label, b: Label, c: Label)
    requires Below(a, b) && Below(b, c)
    ensures Below(a, c)
  {
    if |a| > 0 && a[0] == b[0] && b[0] == c[0] {
      BelowTransitive(a[1..], b[1..], c[1..]);
    }
  }

  lemma {:induction false} BelowTotal(a: Label, b: Label)
    ensures Below(a, b) || Below(b, a)
  {
    if |a| > 0 && |b| > 0 && a[0] == b[0] {
      BelowTotal(a[1..], b[1..]);
    }
  }

  /** Every finite non-empty set of labels has a least element. */
  lemma {:induction false} LeastExists(ks: set<Label>)
    requires ks != {}
    ensures exists m :: m in ks && forall k :: k in ks ==> Below(m, k)
    decreases ks
  {
    var x :| x in ks;
    var rest := ks - {x};
    if rest == {} {
      assert ks == {x};
      BelowReflexive(x);
    } else {
      LeastExists(rest);
      var m :| m in rest && forall k :: k in rest ==> Below(m, k);
      BelowTotal(x, m);
      if Below(x, m) {
        BelowReflexive(x);
        forall k | k in ks ensures Below(x, k) {
          if k != x { BelowTransitive(x, m, k); }
        }
      } else {
        assert forall k :: k in ks ==> Below(m, k);
      }
    }
  }

  /** The least label of a non-empty set. */
  function Least(ks: set<Label>): (m: Label)
    requires ks != {}
    ensures m in ks
  {
    LeastExists(ks);
    assert forall a, b :: Below(a, b) && Below(b, a) ==> a == b by {
      forall a, b | Below(a, b) && Below(b, a) ensures a == b { BelowAntisymmetric(a, b); }
    }
    var m :| m in ks && forall k :: k in ks ==> Below(m, k);
    m
  }

  /** `Least` is below every label of the set. */
  lemma LeastIsBelow(ks: set<Label>)
    requires ks != {}
    ensures forall k :: k in ks ==> Below(Least(ks), k)
  {
  }

  /** A sequence of distinct labels in strictly ascending order. */
  predicate Ascending(s: seq<Label>)
  {
    forall i, j :: 0 <= i < j < |s| ==> Below(s[i], s[j]) && s[i] != s[j]
  }

  /** The labels of `ks` in ascending key order. */
  function SortedLabels(ks: set<Label>): (s: seq<Label>)
    ensures |s| == |ks|
    ensures forall l :: l in s <==> l in ks
    decreases ks
  {
    if ks == {} then []
    else
      var m := Least(ks);
      [m] + SortedLabels(ks - {m})
  }

  /** The walk order is strictly ascending, so no label is visited twice. */
  lemma {:induction false} SortedLabelsAscending(ks: set<Label>)
    ensures Ascending(SortedLabels(ks))
    decreases ks
  {
    if ks != {} {
      var m := Least(ks);
      var rest := SortedLabels(ks - {m});
      LeastIsBelow(ks);
      SortedLabelsAscending(ks - {m});
      assert forall l :: l in rest ==> Below(m, l) && l != m;
      var s := SortedLabels(ks);
      assert s == [m] + rest;
      forall i, j | 0 <= i < j < |s| ensures Below(s[i], s[j]) && s[i] != s[j] {
        if i > 0 {
          assert s[i] == rest[i - 1] && s[j] == rest[j - 1];
        } else {
          assert s[j] == rest[j - 1] && s[j] in rest;
        }
      }
    }
  }

  /** No label occurs twice. */
  predicate Distinct(labels: seq<Label>)
  {
    labels == [] || (labels[0] !in labels[1..] && Distinct(labels[1..]))
  }

  lemma {:induction false} SortedLabelsDistinct(ks: set<Label>)
    ensures Distinct(SortedLabels(ks))
    decreases ks
  {
    if ks != {} {
      var m := Least(ks);
      SortedLabelsDistinct(ks - {m});
      assert SortedLabels(ks)[1..] == SortedLabels(ks - {m});
    }
  }
}
