/** Keeping exactly the elements of a list that have a property, in their order. */
module Selection {

  /** `r` consists of the elements of `s` at the positions `p`, which ascend and are exactly those of the
      elements to keep. */
  ghost predicate SelectsAt<T(!new)>(s: seq<T>, r: seq<T>, keep: T -> bool, p: seq<nat>)
  {
    && |p| == |r|
    && (forall i, j :: 0 <= i < j < |p| ==> p[i] < p[j])
    && (forall i :: 0 <= i < |p| ==> p[i] < |s| && s[p[i]] == r[i] && keep(r[i]))
    && (forall j :: 0 <= j < |s| && keep(s[j]) ==> j in p)
  }

  ghost predicate Selects<T(!new)>(s: seq<T>, r: seq<T>, keep: T -> bool)
  {
    exists p: seq<nat> :: SelectsAt(s, r, keep, p)
  }

  lemma SelectsNone<T(!new)>(keep: T -> bool)
    ensures Selects([], [], keep)
  {
    assert SelectsAt([], [], keep, []);
  }

  lemma SelectsAll<T(!new)>(s: seq<T>, keep: T -> bool)
    requires forall x :: keep(x)
    ensures Selects(s, s, keep)
  {
    var p := seq(|s|, (i: nat) => i);
    forall j | 0 <= j < |s| ensures j in p {
      assert p[j] == j;
    }
    assert SelectsAt(s, s, keep, p);
  }

  lemma DroppedAt<T(!new)>(s: seq<T>, r: seq<T>, keep: T -> bool, p: seq<nat>, x: T)
    requires SelectsAt(s, r, keep, p) && !keep(x)
    ensures SelectsAt(s + [x], r, keep, p)
  {
    forall j | 0 <= j < |s + [x]| && keep((s + [x])[j]) ensures j in p {
      assert j < |s| && keep(s[j]);
    }
  }

  lemma KeptAt<T(!new)>(s: seq<T>, r: seq<T>, keep: T -> bool, p: seq<nat>, x: T)
    requires SelectsAt(s, r, keep, p) && keep(x)
    ensures SelectsAt(s + [x], r + [x], keep, p + [|s|])
  {
    var s', p' := s + [x], p + [|s|];
    forall j | 0 <= j < |s'| && keep(s'[j]) ensures j in p' {
      if j < |s| {
        assert keep(s[j]) && j in p;
      } else {
        assert p'[|p|] == j;
      }
    }
  }

  /** One more element. */
  lemma SelectsSnoc<T(!new)>(s: seq<T>, r: seq<T>, keep: T -> bool, x: T)
    requires Selects(s, r, keep)
    ensures Selects(s + [x], r + if keep(x) then [x] else [], keep)
  {
    var p :| SelectsAt(s, r, keep, p);
    if keep(x) {
      KeptAt(s, r, keep, p, x);
    } else {
      DroppedAt(s, r, keep, p, x);
      assert r + [] == r;
    }
  }

  /** The same for the last element of a list. */
  lemma SelectsLast<T(!new)>(s: seq<T>, before: seq<T>, r: seq<T>, keep: T -> bool)
    requires s != [] && Selects(s[..|s| - 1], before, keep)
    requires r == before + if keep(s[|s| - 1]) then [s[|s| - 1]] else []
    ensures Selects(s, r, keep)
  {
    SelectsSnoc(s[..|s| - 1], before, keep, s[|s| - 1]);
    assert s == s[..|s| - 1] + [s[|s| - 1]];
  }
}
