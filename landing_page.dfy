/**
  The landing page's component state: the list of liked cabin ids, the index of
  the testimonial on show, and the selected category. Each is replaced by a
  setter driven by a click or by the carousel timer; the timer is a discrete Tick.
*/
module LandingPage {

  /** testimonials.length */
  const TestimonialCount: nat := 3

  /** The ids of the category buttons; the initial selection is "all". */
  const CategoryIds: seq<string> := ["all", "luxury", "family", "romantic", "adventure"]

  // ---------------------------------------------------------------- liked list

  /** prev.filter((id) => id !== x) */
  function RemoveAll(s: seq<int>, x: int): (r: seq<int>)
    ensures x !in r
    ensures forall y :: y != x ==> (y in r <==> y in s)
    ensures |r| <= |s|
    ensures x in s ==> |r| < |s|
  {
    if s == [] then []
    else if s[0] == x then RemoveAll(s[1..], x)
    else [s[0]] + RemoveAll(s[1..], x)
  }

  /** The updater passed to setLikedCabins by toggleLike. */
  function Toggle(prev: seq<int>, x: int): (r: seq<int>)
    ensures x in r <==> x !in prev
    ensures x in prev ==> |r| < |prev|
    ensures x !in prev ==> |r| == |prev| + 1
  {
    if x in prev then RemoveAll(prev, x) else prev + [x]
  }

  /** r can be obtained from s by deleting elements, so r keeps the relative order of s. */
  ghost predicate IsSubsequence(r: seq<int>, s: seq<int>)
    decreases |s|
  {
    if r == [] then true
    else if s == [] then false
    else if r[0] == s[0] then IsSubsequence(r[1..], s[1..])
    else IsSubsequence(r, s[1..])
  }

  predicate NoDuplicates(s: seq<int>)
  {
    forall i, j :: 0 <= i < j < |s| ==> s[i] != s[j]
  }

  /** Filtering keeps the survivors in order and each with its number of occurrences. */
  lemma {:induction false} RemoveAllSpec(s: seq<int>, x: int)
    ensures IsSubsequence(RemoveAll(s, x), s)
    ensures multiset(RemoveAll(s, x)) == multiset(s)[x := 0]
  {
    if s != [] {
      RemoveAllSpec(s[1..], x);
      assert s == [s[0]] + s[1..];
      assert multiset(s) == multiset{s[0]} + multiset(s[1..]);
      var r := RemoveAll(s, x);
      if s[0] != x {
        assert r[1..] == RemoveAll(s[1..], x);
      }
    }
  }

  /** A subsequence holds no more occurrences of anything than the sequence it came from. */
  lemma {:induction false} SubsequenceMultiset(r: seq<int>, s: seq<int>)
    requires IsSubsequence(r, s)
    ensures multiset(r) <= multiset(s)
    decreases |s|
  {
    if r != [] {
      assert s == [s[0]] + s[1..];
      if r[0] == s[0] {
        SubsequenceMultiset(r[1..], s[1..]);
        assert r == [r[0]] + r[1..];
      } else {
        SubsequenceMultiset(r, s[1..]);
      }
    }
  }

  /** Removing one occurrence of a from each side of an equation between multisets. */
  lemma CancelOne(a: int, p: multiset<int>, q: multiset<int>)
    requires multiset{a} + p == multiset{a} + q
    ensures p == q
  {
    assert p == (multiset{a} + p) - multiset{a};
    assert q == (multiset{a} + q) - multiset{a};
  }

  /** Order and multiplicities determine the filtered list: no other list meets both. */
  lemma {:induction false} RemoveAllUnique(r: seq<int>, s: seq<int>, x: int)
    requires IsSubsequence(r, s)
    requires multiset(r) == multiset(s)[x := 0]
    ensures r == RemoveAll(s, x)
    decreases |s|
  {
    if s == [] {
      assert |multiset(r)| == 0;
    } else {
      var a, t := s[0], s[1..];
      assert s == [a] + t;
      assert multiset(s) == multiset{a} + multiset(t);
      if a == x {
        assert multiset(s)[x := 0] == multiset(t)[x := 0];
        if r != [] {
          assert r[0] in multiset(r);
        }
        RemoveAllUnique(r, t, x);
      } else {
        assert multiset(s)[x := 0] == multiset{a} + multiset(t)[x := 0];
        assert multiset(r)[a] == multiset(t)[a] + 1;
        if r[0] == a {
          assert r == [a] + r[1..];
          assert multiset(r) == multiset{a} + multiset(r[1..]);
          CancelOne(a, multiset(r[1..]), multiset(t)[x := 0]);
          RemoveAllUnique(r[1..], t, x);
        } else {
          SubsequenceMultiset(r, t);
          assert false;
        }
      }
    }
  }

  /** Filtering out x from s + [x] removes exactly the appended x when s has none. */
  lemma {:induction false} RemoveAllAppended(s: seq<int>, x: int)
    requires x !in s
    ensures RemoveAll(s + [x], x) == s
  {
    if s == [] {
      assert [] + [x] == [x];
    } else {
      assert (s + [x])[1..] == s[1..] + [x];
      RemoveAllAppended(s[1..], x);
      assert s == [s[0]] + s[1..];
    }
  }

  /** Filtering never introduces a duplicate. */
  lemma {:induction false} RemoveAllNoDuplicates(s: seq<int>, x: int)
    requires NoDuplicates(s)
    ensures NoDuplicates(RemoveAll(s, x))
  {
    if s != [] {
      assert NoDuplicates(s[1..]) by {
        forall i, j | 0 <= i < j < |s[1..]| ensures s[1..][i] != s[1..][j] {
          assert s[1..][i] == s[i + 1] && s[1..][j] == s[j + 1];
        }
      }
      RemoveAllNoDuplicates(s[1..], x);
      if s[0] != x {
        assert s[0] !in s[1..] by {
          forall k | 0 <= k < |s[1..]| ensures s[1..][k] != s[0] {
            assert s[1..][k] == s[k + 1];
          }
        }
        var t := RemoveAll(s[1..], x);
        assert s[0] !in t;
        var r := [s[0]] + t;
        forall i, j | 0 <= i < j < |r| ensures r[i] != r[j] {
          if i == 0 {
            assert r[j] == t[j - 1];
          } else {
            assert r[i] == t[i - 1] && r[j] == t[j - 1];
          }
        }
      }
    }
  }

  /** Toggling an absent id appends it, keeping the existing entries in place. */
  lemma ToggleAbsent(prev: seq<int>, x: int)
    requires x !in prev
    ensures Toggle(prev, x) == prev + [x]
    ensures Toggle(prev, x)[..|prev|] == prev && Toggle(prev, x)[|prev|] == x
  {
    assert (prev + [x])[..|prev|] == prev;
  }

  /** Toggling a present id removes every occurrence and keeps the rest in order and multiplicity. */
  lemma TogglePresent(prev: seq<int>, x: int)
    requires x in prev
    ensures x !in Toggle(prev, x)
    ensures IsSubsequence(Toggle(prev, x), prev)
    ensures multiset(Toggle(prev, x)) == multiset(prev)[x := 0]
  {
    RemoveAllSpec(prev, x);
  }

  /** The toggled id changes membership; every other id keeps its membership. */
  lemma ToggleFlipsMembership(prev: seq<int>, x: int)
    ensures x in Toggle(prev, x) <==> x !in prev
    ensures forall y :: y != x ==> (y in Toggle(prev, x) <==> y in prev)
  {
  }

  /** Toggling the same absent id twice gives back the original list. */
  lemma ToggleTwiceAbsent(prev: seq<int>, x: int)
    requires x !in prev
    ensures Toggle(Toggle(prev, x), x) == prev
  {
    RemoveAllAppended(prev, x);
  }

  /**
    Toggling a present id twice brings it back, at the end: the list is the filtered
    list plus the id, so with no duplicates the set of ids is restored but not the order.
  */
  lemma ToggleTwicePresent(prev: seq<int>, x: int)
    requires x in prev
    ensures Toggle(Toggle(prev, x), x) == RemoveAll(prev, x) + [x]
    ensures forall y :: y in Toggle(Toggle(prev, x), x) <==> y in prev
  {
  }

  /** A list without duplicates keeps none after a toggle. */
  lemma ToggleNoDuplicates(prev: seq<int>, x: int)
    requires NoDuplicates(prev)
    ensures NoDuplicates(Toggle(prev, x))
  {
    if x in prev {
      RemoveAllNoDuplicates(prev, x);
    } else {
      var r := prev + [x];
      forall i, j | 0 <= i < j < |r| ensures r[i] != r[j] {
        if j == |prev| {
          assert r[i] == prev[i];
        }
      }
    }
  }

  // ---------------------------------------------------------------- carousel

  /** The updater passed to setCurrentTestimonial by the timer. */
  function Advance(i: nat): (r: nat)
    ensures r < TestimonialCount
    ensures i < TestimonialCount ==> r == if i + 1 == TestimonialCount then 0 else i + 1
  {
    (i + 1) % TestimonialCount
  }

  /** The index after k timer ticks from i. */
  function Ticks(i: nat, k: nat): nat
  {
    if k == 0 then i else Advance(Ticks(i, k - 1))
  }

  /** k ticks from a valid index move it k places round the cycle. */
  lemma {:induction false} TicksAdvanceBy(i: nat, k: nat)
    requires i < TestimonialCount
    ensures Ticks(i, k) == (i + k) % TestimonialCount
  {
    if k > 0 {
      TicksAdvanceBy(i, k - 1);
      var p := (i + k - 1) % TestimonialCount;
      assert i + k - 1 == ((i + k - 1) / TestimonialCount) * TestimonialCount + p;
      assert Ticks(i, k) == Advance(p);
      if p + 1 == TestimonialCount {
        assert i + k == ((i + k - 1) / TestimonialCount + 1) * TestimonialCount;
      } else {
        assert i + k == ((i + k - 1) / TestimonialCount) * TestimonialCount + (p + 1);
      }
    }
  }

  /** A full round of ticks, one per testimonial, returns to the starting index. */
  lemma FullCycle(i: nat)
    requires i < TestimonialCount
    ensures Ticks(i, TestimonialCount) == i
  {
    TicksAdvanceBy(i, TestimonialCount);
  }

  // ---------------------------------------------------------------- component state

  /** The state of one LandingPage component. */
  class LandingPageState {
    var liked: seq<int>
    var current: nat
    var category: string

    /** The carousel index is valid, the liked list has no duplicate, the category is a listed one. */
    ghost predicate Valid()
      reads this
    {
      current < TestimonialCount && NoDuplicates(liked) && category in CategoryIds
    }

    /** The initial values of the three useState calls. */
    constructor ()
      ensures liked == [] && current == 0 && category == "all"
      ensures Valid()
    {
      liked := [];
      current := 0;
      category := "all";
    }

    /** likedCabins.includes(id): some position of the list holds id. */
    function IsLiked(id: int): (r: bool)
      reads this
      ensures r <==> exists k :: 0 <= k < |liked| && liked[k] == id
    {
      id in liked
    }

    /** toggleLike(id), followed by the state update it schedules. */
    method ToggleLike(id: int)
      requires Valid()
      modifies this
      ensures liked == Toggle(old(liked), id)
      ensures IsLiked(id) == !old(IsLiked(id))
      ensures forall y :: y != id ==> (IsLiked(y) <==> old(IsLiked(y)))
      ensures current == old(current) && category == old(category)
      ensures Valid()
    {
      ToggleNoDuplicates(liked, id);
      liked := Toggle(liked, id);
    }

    /** One firing of the 4000 ms interval. */
    method Tick()
      requires Valid()
      modifies this
      ensures current == Advance(old(current))
      ensures liked == old(liked) && category == old(category)
      ensures Valid()
    {
      current := Advance(current);
    }

    /** A click on testimonial indicator i; indicators exist only for the three testimonials. */
    method Select(i: nat)
      requires Valid()
      requires i < TestimonialCount
      modifies this
      ensures current == i
      ensures liked == old(liked) && category == old(category)
      ensures Valid()
    {
      current := i;
    }

    /** A click on a category button: records the choice; the rendered cabins do not depend on it. */
    method SelectCategory(c: string)
      requires Valid()
      requires c in CategoryIds
      modifies this
      ensures category == c
      ensures liked == old(liked) && current == old(current)
      ensures Valid()
    {
      category := c;
    }
  }

  /** Liking cabin 5 twice from the initial state leaves the list empty again. */
  method LikeTwiceFromStart() returns (s: LandingPageState)
    ensures fresh(s) && s.liked == [] && s.Valid()
  {
    s := new LandingPageState();
    s.ToggleLike(5);
    assert s.liked == [5];
    s.ToggleLike(5);
  }

  /** Three ticks from the initial index return to 0; selecting indicator 2 then holds until the next tick. */
  method CarouselRound() returns (s: LandingPageState)
    ensures fresh(s) && s.current == 2 && s.Valid()
  {
    s := new LandingPageState();
    s.Tick();
    s.Tick();
    s.Tick();
    assert s.current == 0;
    s.Select(2);
  }
}
