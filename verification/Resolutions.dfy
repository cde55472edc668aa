/** The resolutions a display offers: the kernel's list without adjacent repeats, cut to the device's limits. */
module Resolutions {
  import opened Drm
  import opened Searches
  import opened SystemModel

  /** `std::unique`: drops an element that equals the one kept before it. */
  function Unique(s: seq<Size>): seq<Size> {
    if |s| == 0 then []
    else
      var front, last := s[..|s| - 1], s[|s| - 1];
      if |front| > 0 && front[|front| - 1] == last then Unique(front) else Unique(front) + [last]
  }

  /** The elements that satisfy a predicate, in order. */
  function Keep(s: seq<Size>, p: Size -> bool): seq<Size> {
    if |s| == 0 then [] else Keep(s[..|s| - 1], p) + if p(s[|s| - 1]) then [s[|s| - 1]] else []
  }

  function IsValid(caps: Caps): Size -> bool {
    size => ValidMode(caps, size)
  }

  /** getSupportedResolutions */
  function Supported(modes: seq<Size>, caps: Caps): seq<Size> {
    Keep(Unique(modes), IsValid(caps))
  }

  // ----- membership -----

  lemma {:induction false} UniqueMembers(s: seq<Size>, x: Size)
    ensures x in Unique(s) <==> x in s
    ensures |s| > 0 ==> |Unique(s)| > 0 && Unique(s)[|Unique(s)| - 1] == s[|s| - 1]
  {
    if |s| > 0 {
      UniqueMembers(s[..|s| - 1], x);
    }
  }

  lemma {:induction false} KeepMembers(s: seq<Size>, p: Size -> bool, x: Size)
    ensures x in Keep(s, p) <==> x in s && p(x)
  {
    if |s| > 0 {
      KeepMembers(s[..|s| - 1], p, x);
    }
  }

  /** The answer contains exactly the valid sizes among the modes. */
  lemma SupportedMembers(modes: seq<Size>, caps: Caps, x: Size)
    ensures x in Supported(modes, caps) <==>
      x in modes && caps.min.w <= x.w <= caps.max.w && caps.min.h <= x.h <= caps.max.h
  {
    UniqueMembers(modes, x);
    KeepMembers(Unique(modes), IsValid(caps), x);
  }

  // ----- order -----

  /** `s` is `t` with some elements left out. */
  predicate Subsequence(s: seq<Size>, t: seq<Size>) {
    if |s| == 0 then true
    else if |t| == 0 then false
    else if s[|s| - 1] == t[|t| - 1] && Subsequence(s[..|s| - 1], t[..|t| - 1]) then true
    else Subsequence(s, t[..|t| - 1])
  }

  lemma {:induction false} UniqueOrder(s: seq<Size>)
    ensures Subsequence(Unique(s), s)
  {
    if |s| > 0 {
      var front := s[..|s| - 1];
      UniqueOrder(front);
      if |front| == 0 || front[|front| - 1] != s[|s| - 1] {
        assert Unique(s)[..|Unique(s)| - 1] == Unique(front);
      }
    }
  }

  lemma {:induction false} KeepOrder(s: seq<Size>, t: seq<Size>, p: Size -> bool)
    requires Subsequence(s, t)
    ensures Subsequence(Keep(s, p), t)
    decreases |s| + |t|
  {
    if |s| > 0 {
      if s[|s| - 1] == t[|t| - 1] && Subsequence(s[..|s| - 1], t[..|t| - 1]) {
        KeepOrder(s[..|s| - 1], t[..|t| - 1], p);
        if p(s[|s| - 1]) {
          assert Keep(s, p)[..|Keep(s, p)| - 1] == Keep(s[..|s| - 1], p);
        } else {
          assert Keep(s, p) == Keep(s[..|s| - 1], p);
          SubsequenceGrows(Keep(s, p), t);
        }
      } else {
        KeepOrder(s, t[..|t| - 1], p);
        SubsequenceGrows(Keep(s, p), t);
      }
    }
  }

  lemma SubsequenceGrows(s: seq<Size>, t: seq<Size>)
    requires |t| > 0 && Subsequence(s, t[..|t| - 1])
    ensures Subsequence(s, t)
  {
  }

  /** The answer keeps the order of the kernel's list. */
  lemma SupportedOrder(modes: seq<Size>, caps: Caps)
    ensures Subsequence(Supported(modes, caps), modes)
  {
    UniqueOrder(modes);
    KeepOrder(Unique(modes), modes, IsValid(caps));
  }

  // ----- repeats -----

  /** All occurrences of the size stand next to each other. */
  predicate Contiguous(s: seq<Size>, x: Size) {
    forall i, j, k :: 0 <= i <= j <= k < |s| && s[i] == x && s[k] == x ==> s[j] == x
  }

  /** How often a size occurs. */
  function Count(s: seq<Size>, x: Size): nat {
    if |s| == 0 then 0 else Count(s[..|s| - 1], x) + if s[|s| - 1] == x then 1 else 0
  }

  lemma {:induction false} CountMembers(s: seq<Size>, x: Size)
    ensures Count(s, x) > 0 <==> x in s
  {
    if |s| > 0 {
      CountMembers(s[..|s| - 1], x);
    }
  }

  lemma {:induction false} NoRepeatCounts(s: seq<Size>)
    ensures NoRepeat(s) <==> forall x :: x in s ==> Count(s, x) == 1
  {
    if |s| > 0 {
      var front, last := s[..|s| - 1], s[|s| - 1];
      NoRepeatCounts(front);
      CountMembers(front, last);
      if NoRepeat(s) {
        assert NoRepeat(front) by {
          assert forall i :: 0 <= i < |front| ==> front[i] == s[i];
        }
        assert last !in front;
        forall x | x in s
          ensures Count(s, x) == 1
        {
          if x != last {
            assert x in front;
          }
        }
      }
      if forall x :: x in s ==> Count(s, x) == 1 {
        assert last in s;
        forall x | x in front
          ensures Count(front, x) == 1
        {
          assert x in s;
          CountMembers(front, x);
        }
        assert NoRepeat(front) && last !in front;
        assert forall i :: 0 <= i < |front| ==> front[i] == s[i];
      }
    }
  }

  lemma {:induction false} KeepCount(s: seq<Size>, p: Size -> bool, x: Size)
    ensures Count(Keep(s, p), x) == if p(x) then Count(s, x) else 0
  {
    if |s| > 0 {
      var front, last := s[..|s| - 1], s[|s| - 1];
      KeepCount(front, p, x);
      if p(last) {
        assert Keep(s, p)[..|Keep(s, p)| - 1] == Keep(front, p);
      } else {
        assert Keep(s, p) == Keep(front, p);
      }
    }
  }

  /** A contiguous size survives once, any other at least twice. */
  lemma {:induction false} UniqueCount(s: seq<Size>, x: Size)
    ensures x in s ==> (Count(Unique(s), x) == 1 <==> Contiguous(s, x))
    ensures x !in s ==> Count(Unique(s), x) == 0
  {
    UniqueMembers(s, x);
    CountMembers(Unique(s), x);
    if |s| > 0 {
      var front, last := s[..|s| - 1], s[|s| - 1];
      UniqueCount(front, x);
      UniqueMembers(front, x);
      CountMembers(Unique(front), x);
      assert forall i :: 0 <= i < |front| ==> s[i] == front[i];
      var merged := |front| > 0 && front[|front| - 1] == last;
      if !merged {
        assert Unique(s)[..|Unique(s)| - 1] == Unique(front);
      }
      ContiguousStep(s, x);
    }
  }

  /** Appending an element keeps `x` contiguous unless `x` returns after something else. */
  lemma ContiguousStep(s: seq<Size>, x: Size)
    requires |s| > 0
    ensures var front := s[..|s| - 1];
      Contiguous(s, x) <==> Contiguous(front, x) && (s[|s| - 1] == x && x in front ==> front[|front| - 1] == x)
  {
    var front := s[..|s| - 1];
    assert forall i :: 0 <= i < |front| ==> s[i] == front[i];
    if Contiguous(s, x) && s[|s| - 1] == x && x in front {
      var i :| 0 <= i < |front| && front[i] == x;
      assert s[i] == x && s[|front| - 1] == x;
    }
  }

  /** The answer is free of repeats exactly when every valid size is contiguous in the kernel's list. */
  lemma SupportedNoRepeatExactly(modes: seq<Size>, caps: Caps)
    ensures NoRepeat(Supported(modes, caps)) <==> forall x :: x in modes && ValidMode(caps, x) ==> Contiguous(modes, x)
  {
    var r := Supported(modes, caps);
    NoRepeatCounts(r);
    forall x
      ensures x in r <==> x in modes && ValidMode(caps, x)
      ensures x in r ==> (Count(r, x) == 1 <==> Contiguous(modes, x))
    {
      SupportedMembers(modes, caps, x);
      KeepCount(Unique(modes), IsValid(caps), x);
      UniqueCount(modes, x);
    }
  }

  // ----- the other order of the two steps -----

  /** When every valid size is contiguous, filtering first gives the same answer. */
  lemma {:induction false} FilterFirst(modes: seq<Size>, p: Size -> bool)
    requires forall x :: p(x) ==> Contiguous(modes, x)
    ensures Keep(Unique(modes), p) == Unique(Keep(modes, p))
  {
    if |modes| > 0 {
      var front, last := modes[..|modes| - 1], modes[|modes| - 1];
      forall x | p(x)
        ensures Contiguous(front, x)
      {
        ContiguousStep(modes, x);
      }
      FilterFirst(front, p);
      LastKept(front, p, last);
      if p(last) {
        ContiguousStep(modes, last);
        KeepMembers(front, p, last);
        var kept := Keep(front, p);
        assert Keep(modes, p) == kept + [last];
        assert Keep(modes, p)[..|kept|] == kept;
        if |kept| > 0 && kept[|kept| - 1] == last {
          assert last in front;
        }
      } else {
        assert Keep(modes, p) == Keep(front, p);
      }
      if !(|front| > 0 && front[|front| - 1] == last) {
        assert Unique(modes)[..|Unique(modes)| - 1] == Unique(front);
      }
    }
  }

  /** If the last element passes, it is also the last one kept. */
  lemma LastKept(s: seq<Size>, p: Size -> bool, x: Size)
    ensures |s| > 0 && s[|s| - 1] == x && p(x) ==> |Keep(s, p)| > 0 && Keep(s, p)[|Keep(s, p)| - 1] == x
  {
  }

  /** Two sizes that return after an invalid one are listed twice; filtering first would list them once. */
  lemma RepeatExample(caps: Caps, good: Size, bad: Size)
    requires ValidMode(caps, good) && !ValidMode(caps, bad)
    ensures Supported([good, bad, good], caps) == [good, good]
    ensures Unique(Keep([good, bad, good], IsValid(caps))) == [good]
  {
    var s := [good, bad, good];
    assert s[..2] == [good, bad] && s[..2][..1] == [good] && s[..2][..1][..0] == [];
    assert Unique([good]) == [good];
    assert Unique([good, bad]) == [good, bad];
    assert Unique(s) == s;
    assert Keep([good], IsValid(caps)) == [good];
    assert Keep([good, bad], IsValid(caps)) == [good];
    assert Keep(s, IsValid(caps)) == [good, good];
    assert [good, good][..1] == [good];
  }
}
