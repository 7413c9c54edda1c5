/** Facts about slices and concatenations, one at a time. */
module Sequences {

  /** All parts in order. */
  function Flat<T>(parts: seq<seq<T>>): seq<T> {
    if parts == [] then [] else parts[0] + Flat(parts[1..])
  }

  lemma {:induction false} FlatCat<T>(a: seq<seq<T>>, b: seq<seq<T>>)
    ensures Flat(a + b) == Flat(a) + Flat(b)
  {
    if a == [] {
      assert a + b == b;
    } else {
      assert (a + b)[1..] == a[1..] + b;
      FlatCat(a[1..], b);
    }
  }

  lemma FlatSnoc<T>(parts: seq<seq<T>>, last: seq<T>)
    ensures Flat(parts + [last]) == Flat(parts) + last
  {
    FlatCat(parts, [last]);
    assert Flat([last]) == last + [] == last;
  }

  lemma Associates<T>(a: seq<T>, b: seq<T>, c: seq<T>)
    ensures (a + b) + c == a + (b + c)
  {
  }

  lemma HeadAndTail<T>(s: seq<T>)
    requires s != []
    ensures s == [s[0]] + s[1..]
  {
  }

  lemma WholeTail<T>(s: seq<T>)
    ensures s[0..] == s
  {
  }

  lemma Rejoined<T>(s: seq<T>, n: nat)
    requires n <= |s|
    ensures s == s[..n] + s[n..]
  {
  }

  lemma FrontOfCat<T>(a: seq<T>, b: seq<T>, n: nat)
    requires n <= |a|
    ensures (a + b)[..n] == a[..n]
  {
  }

  lemma TailOfCat<T>(a: seq<T>, b: seq<T>, n: nat)
    requires n <= |a|
    ensures (a + b)[n..] == a[n..] + b
  {
  }

  lemma SecondOfCat<T>(a: seq<T>, b: seq<T>)
    ensures (a + b)[|a|..] == b
  {
  }

  lemma MiddleOfCat<T>(a: seq<T>, b: seq<T>, i: nat, j: nat)
    requires i <= j <= |b|
    ensures (a + b)[|a| + i..|a| + j] == b[i..j]
  {
  }

  /** One more element taken from the front. */
  lemma OneMore<T>(s: seq<T>, n: nat)
    requires n < |s|
    ensures s[..n + 1] == s[..n] + [s[n]] && s[..n + 1][..n] == s[..n]
  {
  }

  lemma SliceOfTail<T>(s: seq<T>, i: nat, j: nat, k: nat)
    requires i <= j <= k <= |s|
    ensures s[i..][j - i..k - i] == s[j..k] && s[i..][j - i..] == s[j..]
  {
  }

  // ----- Filters, by position

  /** `ps` are the positions of the elements that `keep` picks, in order. */
  ghost predicate Picks<T>(ps: seq<nat>, s: seq<T>, keep: T -> bool) {
    && (forall i :: 0 <= i < |ps| ==> ps[i] < |s|)
    && (forall i, j :: 0 <= i < j < |ps| ==> ps[i] < ps[j])
    && forall n: nat :: n < |s| ==> (n in ps <==> keep(s[n]))
  }

  lemma NothingPicked<T>(keep: T -> bool)
    ensures Picks([], [], keep) && Image<T>([], []) == []
  {
  }

  lemma PicksFit<T>(ps: seq<nat>, s: seq<T>, keep: T -> bool)
    requires Picks(ps, s, keep)
    ensures forall i :: 0 <= i < |ps| ==> ps[i] < |s|
  {
  }

  function OneOn(ps: seq<nat>): (qs: seq<nat>)
    ensures |qs| == |ps|
  {
    seq(|ps|, i requires 0 <= i < |ps| => ps[i] + 1)
  }

  /** The elements at these positions. */
  function Image<T>(s: seq<T>, ps: seq<nat>): (r: seq<T>)
    requires forall i :: 0 <= i < |ps| ==> ps[i] < |s|
    ensures |r| == |ps| && forall i :: 0 <= i < |ps| ==> r[i] == s[ps[i]]
  {
    seq(|ps|, i requires 0 <= i < |ps| => s[ps[i]])
  }

  /** The same positions with one more element in front. */
  lemma PicksCons<T>(ps: seq<nat>, s: seq<T>, keep: T -> bool) returns (qs: seq<nat>)
    requires s != [] && Picks(ps, s[1..], keep)
    ensures Picks(qs, s, keep)
    ensures Image(s, qs) == (if keep(s[0]) then [s[0]] else []) + Image(s[1..], ps)
  {
    qs := (if keep(s[0]) then [0] else []) + OneOn(ps);
    ShiftedPicks(ps, s, keep);
    ShiftedImage(s, ps);
    if keep(s[0]) {
      ImageCons(s, 0, OneOn(ps));
    } else {
      assert [] + OneOn(ps) == OneOn(ps) && [] + Image(s[1..], ps) == Image(s[1..], ps);
    }
  }

  lemma ImageCons<T>(s: seq<T>, p: nat, ps: seq<nat>)
    requires p < |s| && forall i :: 0 <= i < |ps| ==> ps[i] < |s|
    ensures Image(s, [p] + ps) == [s[p]] + Image(s, ps)
  {
  }

  lemma ShiftedPicks<T>(ps: seq<nat>, s: seq<T>, keep: T -> bool)
    requires s != [] && Picks(ps, s[1..], keep)
    ensures Picks((if keep(s[0]) then [0] else []) + OneOn(ps), s, keep)
  {
    var qs := (if keep(s[0]) then [0] else []) + OneOn(ps);
    forall n: nat | n < |s| ensures n in qs <==> keep(s[n]) {
      assert forall i :: 0 <= i < |ps| ==> OneOn(ps)[i] == ps[i] + 1;
      if n > 0 {
        assert s[1..][n - 1] == s[n];
        assert n - 1 in ps ==> n in OneOn(ps);
      }
    }
  }

  lemma ShiftedImage<T>(s: seq<T>, ps: seq<nat>)
    requires s != [] && forall i :: 0 <= i < |ps| ==> ps[i] < |s| - 1
    ensures Image(s, OneOn(ps)) == Image(s[1..], ps)
  {
    forall i | 0 <= i < |ps| ensures Image(s, OneOn(ps))[i] == Image(s[1..], ps)[i] {
      assert OneOn(ps)[i] == ps[i] + 1 && s[1..][ps[i]] == s[ps[i] + 1];
    }
  }

  /** The same positions with one more element behind. */
  lemma PicksSnoc<T>(ps: seq<nat>, s: seq<T>, last: T, keep: T -> bool) returns (qs: seq<nat>)
    requires Picks(ps, s, keep)
    ensures Picks(qs, s + [last], keep)
    ensures Image(s + [last], qs) == Image(s, ps) + (if keep(last) then [last] else [])
  {
    qs := ps + (if keep(last) then [|s|] else []);
    var all := s + [last];
    forall n: nat | n < |all| ensures n in qs <==> keep(all[n]) {
      assert n < |s| ==> all[n] == s[n];
    }
  }
}
