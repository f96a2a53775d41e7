/** Facts about finite sequences used by every list-shaped part of the proxy. */
module Sequences {

  ghost predicate NoDup<T>(s: seq<T>) {
    forall i, j :: 0 <= i < j < |s| ==> s[i] != s[j]
  }

  ghost function Elems<T>(s: seq<T>): set<T> {
    set x | x in s
  }

  /** `s` without the elements of `gone`, order kept. */
  function Minus<T(==,!new)>(s: seq<T>, gone: set<T>): (r: seq<T>)
    ensures |r| <= |s|
    ensures forall x :: x in r <==> x in s && x !in gone
    ensures forall i :: 0 <= i < |r| ==> r[i] in s && r[i] !in gone
  {
    if s == [] then []
    else if s[0] in gone then Minus(s[1..], gone)
    else [s[0]] + Minus(s[1..], gone)
  }

  lemma {:induction false} MinusNoDup<T(!new)>(s: seq<T>, gone: set<T>)
    requires NoDup(s)
    ensures NoDup(Minus(s, gone))
  {
    if s != [] {
      MinusNoDup(s[1..], gone);
    }
  }

  lemma {:induction false} MinusMinus<T(!new)>(s: seq<T>, a: set<T>, b: set<T>)
    ensures Minus(Minus(s, a), b) == Minus(s, a + b)
  {
    if s != [] {
      MinusMinus(s[1..], a, b);
      if s[0] !in a {
        var m := Minus(s[1..], a);
        assert ([s[0]] + m)[1..] == m;
      }
    }
  }

  lemma {:induction false} MinusNothing<T(!new)>(s: seq<T>, gone: set<T>)
    requires forall x :: x in s ==> x !in gone
    ensures Minus(s, gone) == s
  {
    if s != [] {
      MinusNothing(s[1..], gone);
    }
  }

  lemma {:induction false} MinusEverything<T(!new)>(s: seq<T>, gone: set<T>)
    requires forall x :: x in s ==> x in gone
    ensures Minus(s, gone) == []
  {
    if s != [] {
      assert s[0] in s;
      MinusEverything(s[1..], gone);
    }
  }

  lemma MinusSelf<T(!new)>(s: seq<T>)
    ensures Minus(s, Elems(s)) == []
  {
    MinusEverything(s, Elems(s));
  }

  lemma {:induction false} MinusConcat<T(!new)>(s: seq<T>, t: seq<T>, gone: set<T>)
    ensures Minus(s + t, gone) == Minus(s, gone) + Minus(t, gone)
  {
    if s == [] {
      assert s + t == t;
    } else {
      assert (s + t)[1..] == s[1..] + t;
      MinusConcat(s[1..], t, gone);
    }
  }

  lemma MinusSnoc<T(!new)>(s: seq<T>, x: T, gone: set<T>)
    ensures Minus(s + [x], gone) == if x in gone then Minus(s, gone) else Minus(s, gone) + [x]
  {
    MinusConcat(s, [x], gone);
    assert Minus([x], gone) == if x in gone then [] else [x];
  }

  /** What is left of a sequence stands in the order it stood in. */
  lemma {:induction false} MinusInOrder<T(!new)>(s: seq<T>, gone: set<T>, i: nat, j: nat) returns (p: nat, q: nat)
    requires i < j < |Minus(s, gone)|
    ensures p < q < |s| && s[p] == Minus(s, gone)[i] && s[q] == Minus(s, gone)[j]
  {
    var tail := s[1..];
    if s[0] in gone {
      p, q := MinusInOrder(tail, gone, i, j);
      p, q := p + 1, q + 1;
    } else if i > 0 {
      p, q := MinusInOrder(tail, gone, i - 1, j - 1);
      p, q := p + 1, q + 1;
    } else {
      assert Minus(tail, gone)[j - 1] in tail;
      q :| 0 <= q < |tail| && tail[q] == Minus(tail, gone)[j - 1];
      p, q := 0, q + 1;
    }
  }

  /** Taking one element out of a duplicate-free sequence is a cut at its index. */
  lemma {:induction false} MinusCut<T(!new)>(s: seq<T>, k: nat)
    requires NoDup(s) && k < |s|
    ensures Minus(s, {s[k]}) == s[..k] + s[k + 1..]
  {
    var x := s[k];
    assert s == s[..k] + ([x] + s[k + 1..]);
    MinusConcat(s[..k], [x] + s[k + 1..], {x});
    MinusConcat([x], s[k + 1..], {x});
    MinusNothing(s[..k], {x});
    MinusNothing(s[k + 1..], {x});
  }

  lemma {:induction false} NoDupCard<T>(s: seq<T>)
    requires NoDup(s)
    ensures |Elems(s)| == |s|
  {
    if s != [] {
      NoDupCard(s[1..]);
      assert Elems(s) == Elems(s[1..]) + {s[0]};
      assert s[0] !in Elems(s[1..]);
    }
  }

  lemma ElemsSnoc<T>(s: seq<T>)
    requires s != []
    ensures Elems(s) == Elems(s[..|s| - 1]) + {s[|s| - 1]}
  {
    assert s == s[..|s| - 1] + [s[|s| - 1]];
  }

  lemma NoDupAppend<T>(s: seq<T>, x: T)
    requires NoDup(s) && x !in s
    ensures NoDup(s + [x])
    ensures Elems(s + [x]) == Elems(s) + {x}
  {
  }

  ghost predicate Extends<K, V>(m: map<K, V>, m': map<K, V>) {
    forall k :: k in m ==> k in m' && m'[k] == m[k]
  }

  lemma ValuesGrow<K, V>(m: map<K, V>, m': map<K, V>)
    requires Extends(m, m')
    ensures m.Values <= m'.Values
  {
  }

  lemma ValuesPlus<K, V>(m: map<K, V>, k: K, v: V)
    ensures m[k := v].Values <= m.Values + {v}
  {
  }

  /** `l` is what is done and what is left, `rest`. */
  ghost predicate Parted<T>(l: seq<T>, rest: seq<T>, done: set<T>) {
    && NoDup(rest)
    && (forall a :: a in l ==> a in done || a in rest)
    && (forall a :: a in rest ==> a !in done)
  }

  lemma PartedStart<T>(l: seq<T>)
    requires NoDup(l)
    ensures Parted(l, l, {})
  {
  }

  lemma PartedStep<T>(l: seq<T>, rest: seq<T>, done: set<T>)
    requires Parted(l, rest, done) && rest != []
    ensures Parted(l, rest[1..], done + {rest[0]}) && rest[0] !in done
  {
    assert rest == [rest[0]] + rest[1..] && rest[0] in rest;
  }
}
