/** The order of strings (code point by code point, as bytes of UTF-8 also compare) and the
    sorted enumeration of a set of them, which is how a tree map yields its keys. */
module Ordering {

  predicate Less(a: string, b: string) {
    b != [] && (a == [] || a[0] < b[0] || (a[0] == b[0] && Less(a[1..], b[1..])))
  }

  lemma {:induction false} LessIrreflexive(a: string)
    ensures !Less(a, a)
  {
    if a != [] {
      LessIrreflexive(a[1..]);
    }
  }

  lemma {:induction false} LessTransitive(a: string, b: string, c: string)
    requires Less(a, b) && Less(b, c)
    ensures Less(a, c)
    decreases |a|
  {
    if a != [] && a[0] == b[0] && b[0] == c[0] {
      LessTransitive(a[1..], b[1..], c[1..]);
    }
  }

  lemma {:induction false} LessTotal(a: string, b: string)
    ensures Less(a, b) || Less(b, a) || a == b
    decreases |a|
  {
    if a != [] && b != [] && a[0] == b[0] {
      LessTotal(a[1..], b[1..]);
      assert a == [a[0]] + a[1..] && b == [b[0]] + b[1..];
    }
  }

  /** At place i the strings first differ: there one of them ends or has the smaller character. */
  predicate LessAt(a: string, b: string, i: nat) {
    && i <= |a| && i < |b| && a[..i] == b[..i]
    && (i == |a| || a[i] < b[i])
  }

  lemma {:induction false} LessIff(a: string, b: string)
    ensures Less(a, b) <==> exists i: nat :: LessAt(a, b, i)
    decreases |a|
  {
    if Less(a, b) {
      LessPlace(a, b);
    }
    if i: nat :| LessAt(a, b, i) {
      FirstDifference(a, b, i);
    }
  }

  lemma {:induction false} LessPlace(a: string, b: string)
    requires Less(a, b)
    ensures exists i: nat :: LessAt(a, b, i)
    decreases |a|
  {
    if a == [] || a[0] < b[0] {
      assert LessAt(a, b, 0);
    } else {
      LessPlace(a[1..], b[1..]);
      var i: nat :| LessAt(a[1..], b[1..], i);
      assert a[..i + 1] == [a[0]] + a[1..][..i] && b[..i + 1] == [b[0]] + b[1..][..i];
      assert LessAt(a, b, i + 1);
    }
  }

  lemma {:induction false} FirstDifference(a: string, b: string, i: nat)
    requires LessAt(a, b, i)
    ensures Less(a, b)
    decreases i
  {
    if i > 0 {
      assert a[0] == a[..i][0] && b[0] == b[..i][0];
      assert a[1..][..i - 1] == a[..i][1..] && b[1..][..i - 1] == b[..i][1..];
      FirstDifference(a[1..], b[1..], i - 1);
    }
  }

  ghost predicate Ascending(s: seq<string>) {
    forall i, j | 0 <= i < j < |s| :: Less(s[i], s[j])
  }

  /** s lists the elements of keys in ascending order. */
  ghost predicate Lists(s: seq<string>, keys: set<string>) {
    Ascending(s) && forall x :: x in s <==> x in keys
  }

  ghost predicate IsLeast(least: string, keys: set<string>) {
    least in keys && forall x | x in keys :: x == least || Less(least, x)
  }

  lemma {:induction false} LeastExists(keys: set<string>)
    requires keys != {}
    ensures exists least :: IsLeast(least, keys)
    decreases keys
  {
    var one :| one in keys;
    var rest := keys - {one};
    if rest == {} {
      assert forall x | x in keys && x != one :: x in rest;
      assert IsLeast(one, keys);
    } else {
      LeastExists(rest);
      var other :| IsLeast(other, rest);
      LessTotal(one, other);
      if Less(other, one) {
        assert IsLeast(other, keys);
      } else {
        forall x | x in keys ensures x == one || Less(one, x) {
          if x in rest && x != other {
            LessTransitive(one, other, x);
          }
        }
        assert IsLeast(one, keys);
      }
    }
  }

  ghost function Least(keys: set<string>): (least: string)
    requires keys != {}
    ensures IsLeast(least, keys)
  {
    LeastExists(keys);
    var least :| IsLeast(least, keys);
    least
  }

  ghost function Sorted(keys: set<string>): (s: seq<string>)
    ensures Lists(s, keys) && |s| == |keys|
    decreases keys
  {
    if keys == {} then []
    else
      var least := Least(keys);
      [least] + Sorted(keys - {least})
  }

  lemma {:induction false} ListsSize(s: seq<string>, keys: set<string>)
    requires Lists(s, keys)
    ensures |s| == |keys|
    decreases |s|
  {
    if s == [] {
      assert keys == {};
    } else {
      TailLists(s, keys);
      ListsSize(s[1..], keys - {s[0]});
      assert s[0] in keys;
    }
  }

  /** There is one ascending list of a set. */
  lemma {:induction false} ListsUnique(s: seq<string>, t: seq<string>, keys: set<string>)
    requires Lists(s, keys) && Lists(t, keys)
    ensures s == t
    decreases |s|
  {
    ListsSize(s, keys);
    ListsSize(t, keys);
    if s != [] {
      assert s[0] in keys && s[0] in t;
      assert t[0] in s;
      var i :| 0 <= i < |t| && t[i] == s[0];
      var j :| 0 <= j < |s| && s[j] == t[0];
      if i > 0 && j > 0 {
        LessTransitive(s[0], t[0], s[0]);
        LessIrreflexive(s[0]);
      }
      assert s[0] == t[0];
      TailLists(s, keys);
      TailLists(t, keys);
      ListsUnique(s[1..], t[1..], keys - {s[0]});
    }
  }

  lemma TailLists(s: seq<string>, keys: set<string>)
    requires s != [] && Lists(s, keys)
    ensures Lists(s[1..], keys - {s[0]})
  {
    LessIrreflexive(s[0]);
    forall x ensures x in s[1..] <==> x in keys - {s[0]} {
      if x in s && x != s[0] {
        var i :| 0 <= i < |s| && s[i] == x;
        assert s[1..][i - 1] == x;
      }
    }
  }

  function InsertKey(x: string, s: seq<string>): seq<string> {
    if s == [] || Less(x, s[0]) then [x] + s else [s[0]] + InsertKey(x, s[1..])
  }

  lemma {:induction false} InsertKeyMembers(x: string, s: seq<string>)
    ensures forall y :: y in InsertKey(x, s) <==> y == x || y in s
    decreases |s|
  {
    if s != [] && !Less(x, s[0]) {
      InsertKeyMembers(x, s[1..]);
      assert forall y :: y in s <==> y == s[0] || y in s[1..];
    }
  }

  lemma {:induction false} InsertKeyAscends(x: string, s: seq<string>)
    requires Ascending(s) && x !in s
    ensures Ascending(InsertKey(x, s))
    decreases |s|
  {
    if s == [] {
    } else if Less(x, s[0]) {
      forall j | 0 <= j < |s| ensures Less(x, s[j]) {
        if j > 0 {
          LessTransitive(x, s[0], s[j]);
        }
      }
    } else {
      InsertKeyAscends(x, s[1..]);
      InsertKeyMembers(x, s[1..]);
      var rest := InsertKey(x, s[1..]);
      forall j | 0 <= j < |rest| ensures Less(s[0], rest[j]) {
        LessTotal(x, s[0]);
        assert rest[j] in rest;
        assert rest[j] == x || rest[j] in s[1..];
      }
    }
  }

  /** Collects the elements of a set and sorts them. */
  method SortedKeys(keys: set<string>) returns (s: seq<string>)
    ensures s == Sorted(keys)
  {
    s := [];
    var rest := keys;
    while rest != {}
      invariant rest <= keys && Lists(s, keys - rest)
      decreases rest
    {
      var key :| key in rest;
      rest := rest - {key};
      InsertKeyMembers(key, s);
      InsertKeyAscends(key, s);
      s := InsertKey(key, s);
    }
    assert keys - rest == keys;
    ListsUnique(s, Sorted(keys), keys);
  }
}
