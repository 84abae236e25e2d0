/** Lists mapped with some elements left out, as a loop with continue and push builds them. */
module Lists {
  import opened Options

  function FilterMap<T, U>(xs: seq<T>, f: T -> Option<U>): (ys: seq<U>)
    ensures |ys| <= |xs|
  {
    if xs == [] then []
    else FilterMap(xs[..|xs| - 1], f) + if f(xs[|xs| - 1]).Some? then [f(xs[|xs| - 1]).value] else []
  }

  function Map<T, U>(xs: seq<T>, f: T -> U): (ys: seq<U>)
    ensures |ys| == |xs| && forall i :: 0 <= i < |xs| ==> ys[i] == f(xs[i])
  {
    seq(|xs|, i requires 0 <= i < |xs| => f(xs[i]))
  }

  lemma MapLast<T, U>(xs: seq<T>, f: T -> U)
    requires xs != []
    ensures Map(xs, f)[..|xs| - 1] == Map(xs[..|xs| - 1], f)
  {
  }

  lemma MapConcat<T, U>(a: seq<T>, b: seq<T>, f: T -> U)
    ensures Map(a + b, f) == Map(a, f) + Map(b, f)
  {
  }

  lemma {:induction false} FilterMapConcat<T, U>(a: seq<T>, b: seq<T>, f: T -> Option<U>)
    ensures FilterMap(a + b, f) == FilterMap(a, f) + FilterMap(b, f)
  {
    if b == [] {
      assert a + b == a;
    } else {
      assert (a + b)[..|a + b| - 1] == a + b[..|b| - 1];
      FilterMapConcat(a, b[..|b| - 1], f);
    }
  }

  lemma ConcatAssoc<T>(a: seq<T>, b: seq<T>, c: seq<T>)
    ensures a + b + c == a + (b + c)
  {
  }

  /** What follows a known prefix. */
  lemma DropPrefix<T>(a: seq<T>, b: seq<T>)
    ensures (a + b)[|a|..] == b
    ensures (a + b)[..|a|] == a
  {
  }

  lemma EmptyFirst<T>(xs: seq<T>)
    ensures [] + xs == xs
  {
  }

  lemma AppendLast<T>(xs: seq<T>, ys: seq<T>)
    requires ys != []
    ensures xs + ys[..|ys| - 1] + [ys[|ys| - 1]] == xs + ys
  {
  }

  /** One more element. */
  lemma FilterMapNext<T, U>(xs: seq<T>, n: nat, f: T -> Option<U>)
    requires n < |xs|
    ensures FilterMap(xs[..n + 1], f) == FilterMap(xs[..n], f) + if f(xs[n]).Some? then [f(xs[n]).value] else []
  {
    assert xs[..n + 1][..n] == xs[..n];
  }

  lemma {:induction false} FilterMapNone<T, U>(xs: seq<T>, f: T -> Option<U>)
    requires forall i :: 0 <= i < |xs| ==> f(xs[i]) == None
    ensures FilterMap(xs, f) == []
  {
    if xs != [] {
      FilterMapNone(xs[..|xs| - 1], f);
    }
  }

  /** ys is what f gives at the places where it gives something, all of them and in order. */
  ghost predicate Picks<T, U>(xs: seq<T>, f: T -> Option<U>, places: seq<nat>, ys: seq<U>) {
    |ys| == |places| && (forall i, j :: 0 <= i < j < |places| ==> places[i] < places[j]) &&
    (forall k :: 0 <= k < |places| ==> places[k] < |xs| && f(xs[places[k]]) == Some(ys[k])) &&
    forall i: nat :: i < |xs| && f(xs[i]).Some? ==> i in places
  }

  lemma PicksDropped<T, U>(xs: seq<T>, f: T -> Option<U>, x: T, places: seq<nat>, ys: seq<U>)
    requires Picks(xs, f, places, ys) && f(x).None?
    ensures Picks(xs + [x], f, places, ys)
  {
    var more := xs + [x];
    assert forall i :: 0 <= i < |xs| ==> more[i] == xs[i];
    assert more[|xs|] == x;
  }

  lemma PicksKept<T, U>(xs: seq<T>, f: T -> Option<U>, x: T, places: seq<nat>, ys: seq<U>)
    requires Picks(xs, f, places, ys) && f(x).Some?
    ensures Picks(xs + [x], f, places + [|xs|], ys + [f(x).value])
  {
    var more, all := xs + [x], places + [|xs|];
    assert forall i :: 0 <= i < |xs| ==> more[i] == xs[i];
    assert more[|xs|] == x;
    forall i: nat | i < |more| && f(more[i]).Some? ensures i in all {
      if i < |xs| {
        assert f(xs[i]).Some? && i in places;
      } else {
        assert all[|places|] == i;
      }
    }
  }

  /** What is kept are the elements at those places. */
  lemma {:induction false} FilterMapPlaces<T, U>(xs: seq<T>, f: T -> Option<U>) returns (places: seq<nat>)
    ensures Picks(xs, f, places, FilterMap(xs, f))
  {
    places := [];
    if xs != [] {
      var n := |xs| - 1;
      places := FilterMapPlaces(xs[..n], f);
      assert xs[..n] + [xs[n]] == xs;
      if f(xs[n]).Some? {
        PicksKept(xs[..n], f, xs[n], places, FilterMap(xs[..n], f));
        places := places + [n];
      } else {
        PicksDropped(xs[..n], f, xs[n], places, FilterMap(xs[..n], f));
      }
    }
  }

  /** Nothing is kept exactly when every element gives nothing. */
  lemma {:induction false} FilterMapEmptyIff<T, U>(xs: seq<T>, f: T -> Option<U>)
    ensures FilterMap(xs, f) == [] <==> forall i :: 0 <= i < |xs| ==> f(xs[i]).None?
  {
    var places := FilterMapPlaces(xs, f);
    if places != [] {
      assert f(xs[places[0]]).Some?;
    }
  }

  /** Nothing is left out exactly when the length stays, and then every element stands in its place. */
  lemma {:induction false} FilterMapAll<T, U>(xs: seq<T>, f: T -> Option<U>)
    ensures |FilterMap(xs, f)| == |xs| <==> forall i :: 0 <= i < |xs| ==> f(xs[i]).Some?
    ensures |FilterMap(xs, f)| == |xs| ==> forall i :: 0 <= i < |xs| ==> f(xs[i]) == Some(FilterMap(xs, f)[i])
  {
    if xs != [] {
      FilterMapAll(xs[..|xs| - 1], f);
    }
  }

  /** Two lists that f reads alike, place by place, give the same. */
  lemma {:induction false} FilterMapSame<T, U>(xs: seq<T>, ys: seq<T>, f: T -> Option<U>)
    requires |xs| == |ys| && forall i :: 0 <= i < |xs| ==> f(xs[i]) == f(ys[i])
    ensures FilterMap(xs, f) == FilterMap(ys, f)
  {
    if xs != [] {
      FilterMapSame(xs[..|xs| - 1], ys[..|ys| - 1], f);
    }
  }

  /** Reading printed elements gives them back exactly when each of them reads back. */
  lemma ReadPrinted<T, U>(us: seq<U>, show: U -> T, read: T -> Option<U>)
    ensures FilterMap(Map(us, show), read) == us <==> forall i :: 0 <= i < |us| ==> read(show(us[i])) == Some(us[i])
  {
    var xs := Map(us, show);
    FilterMapAll(xs, read);
    if forall i :: 0 <= i < |us| ==> read(show(us[i])) == Some(us[i]) {
      assert forall i :: 0 <= i < |xs| ==> read(xs[i]).Some?;
      assert forall i :: 0 <= i < |us| ==> FilterMap(xs, read)[i] == us[i];
    }
  }

  /** A list stays as it is exactly when every element does. */
  lemma {:induction false} Unchanged<T>(xs: seq<T>, f: T -> Option<T>)
    ensures FilterMap(xs, f) == xs <==> forall i :: 0 <= i < |xs| ==> f(xs[i]) == Some(xs[i])
  {
    assert Map(xs, x => x) == xs;
    ReadPrinted(xs, x => x, f);
  }

  /** Elements that give nothing may stand anywhere around the others. */
  lemma AmongOthers<T, U>(before: seq<T>, head: seq<T>, lines: seq<T>, after: seq<T>, f: T -> Option<U>)
    requires forall line | line in before || line in head || line in after :: f(line) == None
    ensures FilterMap(before + head + lines + after, f) == FilterMap(lines, f)
  {
    FilterMapConcat(before + head + lines, after, f);
    FilterMapConcat(before + head, lines, f);
    FilterMapConcat(before, head, f);
    FilterMapNone(before, f);
    FilterMapNone(head, f);
    FilterMapNone(after, f);
  }
}
