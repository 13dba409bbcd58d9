/** Byte-wise order on names, and a key set in that order (slices.Sorted over maps.Keys). */
module Names {
  predicate Less(a: string, b: string) {
    if b == "" then false
    else if a == "" then true
    else a[0] < b[0] || (a[0] == b[0] && Less(a[1..], b[1..]))
  }

  lemma {:induction false} LessTotal(a: string, b: string)
    ensures a == b || Less(a, b) || Less(b, a)
  {
    if a != "" && b != "" && a[0] == b[0] {
      LessTotal(a[1..], b[1..]);
      assert a == [a[0]] + a[1..] && b == [b[0]] + b[1..];
    }
  }

  lemma {:induction false} LessTransitive(a: string, b: string, c: string)
    requires Less(a, b) && Less(b, c)
    ensures Less(a, c)
  {
    if a != "" && a[0] == b[0] == c[0] {
      LessTransitive(a[1..], b[1..], c[1..]);
    }
  }

  lemma {:induction false} LessIrreflexive(a: string)
    ensures !Less(a, a)
  {
    if a != "" {
      LessIrreflexive(a[1..]);
    }
  }

  /** The first difference decides, and a proper beginning comes first. */
  lemma {:induction false} LessExactly(a: string, b: string)
    ensures Less(a, b) <==> a < b || exists i :: 0 <= i < |a| && i < |b| && a[..i] == b[..i] && a[i] < b[i]
  {
    if a != "" && b != "" && a[0] == b[0] {
      LessExactly(a[1..], b[1..]);
      assert a == [a[0]] + a[1..] && b == [b[0]] + b[1..];
      if i :| 0 <= i < |a[1..]| && i < |b[1..]| && a[1..][..i] == b[1..][..i] && a[1..][i] < b[1..][i] {
        assert a[..i + 1] == [a[0]] + a[1..][..i] && b[..i + 1] == [b[0]] + b[1..][..i];
        assert a[i + 1] < b[i + 1];
      }
      if i :| 0 <= i < |a| && i < |b| && a[..i] == b[..i] && a[i] < b[i] {
        assert a[1..][..i - 1] == a[..i][1..] && b[1..][..i - 1] == b[..i][1..];
        assert a[1..][i - 1] < b[1..][i - 1];
      }
    } else if a != "" && b != "" && a[0] < b[0] {
      assert a[..0] == b[..0];
    }
  }

  predicate IsLeast(a: string, names: set<string>) {
    a in names && forall b :: b in names && b != a ==> Less(a, b)
  }

  lemma {:induction false} LeastExists(names: set<string>)
    requires names != {}
    ensures exists a :: IsLeast(a, names)
  {
    var x :| x in names;
    var rest := names - {x};
    if rest == {} {
      assert names == {x};
      assert IsLeast(x, names);
    } else {
      LeastExists(rest);
      var y :| IsLeast(y, rest);
      LessTotal(x, y);
      var a := if Less(x, y) then x else y;
      forall b | b in names && b != a
        ensures Less(a, b)
      {
        if Less(x, y) && b != y {
          LessTransitive(x, y, b);
        }
      }
      assert IsLeast(a, names);
    }
  }

  lemma LeastUnique(names: set<string>)
    ensures forall a, b :: IsLeast(a, names) && IsLeast(b, names) ==> a == b
  {
    forall a, b | IsLeast(a, names) && IsLeast(b, names)
      ensures a == b
    {
      if a != b {
        LessTransitive(a, b, a);
        LessIrreflexive(a);
      }
    }
  }

  function Least(names: set<string>): (a: string)
    requires names != {}
    ensures IsLeast(a, names)
  {
    LeastExists(names);
    LeastUnique(names);
    var a :| IsLeast(a, names);
    a
  }

  function Sorted(names: set<string>): (s: seq<string>)
    ensures |s| == |names|
  {
    if names == {} then []
    else
      var a := Least(names);
      [a] + Sorted(names - {a})
  }

  ghost predicate Increasing(s: seq<string>) {
    forall i, j :: 0 <= i < j < |s| ==> Less(s[i], s[j])
  }

  /** Exactly the names, each once, in increasing order. */
  lemma {:induction false} SortedIsSorted(names: set<string>)
    ensures Increasing(Sorted(names))
    ensures forall a :: a in Sorted(names) <==> a in names
  {
    if names != {} {
      var a := Least(names);
      SortedIsSorted(names - {a});
      var s, t := Sorted(names), Sorted(names - {a});
      assert s == [a] + t;
      forall i, j | 0 <= i < j < |s|
        ensures Less(s[i], s[j])
      {
        assert t[j - 1] in t;
      }
    }
  }

  lemma SortedMembers(names: set<string>)
    ensures forall i :: 0 <= i < |Sorted(names)| ==> Sorted(names)[i] in names
  {
    SortedIsSorted(names);
    forall i | 0 <= i < |Sorted(names)|
      ensures Sorted(names)[i] in names
    {
      assert Sorted(names)[i] in Sorted(names);
    }
  }

  /** The order of iteration over the keys does not matter: there is one sorted list. */
  lemma {:induction false} SortedUnique(names: set<string>, s: seq<string>)
    requires Increasing(s) && forall a :: a in s <==> a in names
    ensures s == Sorted(names)
    decreases |s|
  {
    assert |s| > 0 ==> s[0] in s;
    if names != {} {
      var a := Least(names);
      assert a in s;
      var i :| 0 <= i < |s| && s[i] == a;
      if i > 0 {
        assert s[0] in names && Less(s[0], a) && Less(a, s[0]) by {
          LessIrreflexive(s[0]);
        }
        LessTransitive(a, s[0], a);
        LessIrreflexive(a);
      }
      forall b
        ensures b in s[1..] <==> b in names - {a}
      {
        LessIrreflexive(a);
        if b in s[1..] {
          var j :| 0 <= j < |s| - 1 && s[1..][j] == b;
          assert Less(s[0], s[j + 1]);
        }
      }
      SortedUnique(names - {a}, s[1..]);
    }
  }
}
