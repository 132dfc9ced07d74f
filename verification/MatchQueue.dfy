/**
 The work queue of the sequence matcher.  The source visits the windows breadth first and
 sorts what it found; these lemmas say that this yields the in-order list of MatchSpec.Matches.
 */
module MatchQueue {
  import opened Edits
  import opened MatchSpec

  ghost predicate ValidQueue<T>(x: Input<T>, queue: seq<Window>) {
    forall w :: w in queue ==> ValidWindow(x, w)
  }

  /** The matches the queued windows will still contribute. */
  ghost function Pending<T>(x: Input<T>, queue: seq<Window>): multiset<Match>
    requires ValidQueue(x, queue)
  {
    if queue == [] then multiset{} else multiset(Matches(x, queue[0])) + Pending(x, queue[1..])
  }

  lemma EmptyPending<T>(x: Input<T>)
    ensures Pending(x, []) == multiset{}
  {
  }

  lemma OneWindowPending<T>(x: Input<T>)
    ensures ValidQueue(x, [Whole(x)]) && Pending(x, [Whole(x)]) == multiset(Matches(x, Whole(x)))
  {
    hide Matches;
    assert [Whole(x)][1..] == [];
  }

  /** The windows left and right of a match that still have elements on both sides. */
  function Halves(w: Window, m: Match): seq<Window> {
    (if w.fromBegin < m.from && w.toBegin < m.to then [Window(w.fromBegin, m.from, w.toBegin, m.to)] else [])
    + (if m.from + m.size < w.fromEnd && m.to + m.size < w.toEnd
       then [Window(m.from + m.size, w.fromEnd, m.to + m.size, w.toEnd)] else [])
  }

  lemma MatchesSplit<T>(x: Input<T>, w: Window)
    requires ValidWindow(x, w)
    ensures LongestMatch(x, w).size == 0 ==> Matches(x, w) == []
    ensures LongestMatch(x, w).size > 0 ==>
              var m := LongestMatch(x, w);
              && ValidQueue(x, Halves(w, m))
              && multiset(Matches(x, w)) == Pending(x, Halves(w, m)) + multiset{m}
  {
    var m := LongestMatch(x, w);
    MatchesUnfold(x, w);
    hide LongestMatch, Matches, Pending, Halves;
    if m.size > 0 {
      var l := if Open(LeftOf(w, m)) then Matches(x, LeftOf(w, m)) else [];
      var r := if Open(RightOf(w, m)) then Matches(x, RightOf(w, m)) else [];
      HalvesPending(x, w, m, l, r);
      MultisetAround(l, m, r);
    }
  }

  lemma MatchesUnfold<T>(x: Input<T>, w: Window)
    requires ValidWindow(x, w)
    ensures var m := LongestMatch(x, w);
            Matches(x, w) ==
            if m.size == 0 then [] else
              (if Open(LeftOf(w, m)) then Matches(x, LeftOf(w, m)) else [])
              + [m]
              + (if Open(RightOf(w, m)) then Matches(x, RightOf(w, m)) else [])
  {
    hide LongestMatch;
  }

  lemma MultisetAround(l: seq<Match>, m: Match, r: seq<Match>)
    ensures multiset(l + [m] + r) == multiset(l) + multiset(r) + multiset{m}
  {
  }

  lemma HalvesPending<T>(x: Input<T>, w: Window, m: Match, l: seq<Match>, r: seq<Match>)
    requires ValidWindow(x, w) && GoodMatch(x, w, m)
    requires l == if Open(LeftOf(w, m)) then Matches(x, LeftOf(w, m)) else []
    requires r == if Open(RightOf(w, m)) then Matches(x, RightOf(w, m)) else []
    ensures ValidQueue(x, Halves(w, m))
    ensures Pending(x, Halves(w, m)) == multiset(l) + multiset(r)
  {
    hide Matches;
    OptionalPending(x, LeftOf(w, m));
    OptionalPending(x, RightOf(w, m));
    var lw := if Open(LeftOf(w, m)) then [LeftOf(w, m)] else [];
    var rw := if Open(RightOf(w, m)) then [RightOf(w, m)] else [];
    assert Halves(w, m) == lw + rw;
    PendingConcat(x, lw, rw);
  }

  lemma OptionalPending<T>(x: Input<T>, w: Window)
    requires Open(w) ==> ValidWindow(x, w)
    ensures var q := if Open(w) then [w] else [];
            && ValidQueue(x, q)
            && Pending(x, q) == multiset(if Open(w) then Matches(x, w) else [])
  {
    hide Matches;
    assert [w][1..] == [];
  }

  lemma {:induction false} PendingConcat<T>(x: Input<T>, a: seq<Window>, b: seq<Window>)
    requires ValidQueue(x, a) && ValidQueue(x, b)
    ensures ValidQueue(x, a + b) && Pending(x, a + b) == Pending(x, a) + Pending(x, b)
    decreases |a|
  {
    hide Matches;
    if a == [] {
      assert a + b == b;
    } else {
      assert a[0] in a;
      assert (a + b)[1..] == a[1..] + b;
      PendingConcat(x, a[1..], b);
    }
  }

  /** One step of the queue: its first window is replaced by the halves of its longest match. */
  lemma QueueStep<T>(x: Input<T>, queue: seq<Window>)
    requires ValidQueue(x, queue) && queue != []
    ensures ValidWindow(x, queue[0]) && ValidQueue(x, queue[1..])
    ensures |queue[1..] + Halves(queue[0], LongestMatch(x, queue[0]))| <= |queue| + 1
    ensures var m := LongestMatch(x, queue[0]);
            if m.size == 0 then Pending(x, queue) == Pending(x, queue[1..])
            else ValidQueue(x, queue[1..] + Halves(queue[0], m))
                 && Pending(x, queue) == Pending(x, queue[1..] + Halves(queue[0], m)) + multiset{m}
  {
    assert queue[0] in queue;
    var m := LongestMatch(x, queue[0]);
    MatchesSplit(x, queue[0]);
    hide LongestMatch, Matches, Halves;
    assert Pending(x, queue) == multiset(Matches(x, queue[0])) + Pending(x, queue[1..]);
    if m.size > 0 {
      PendingConcat(x, queue[1..], Halves(queue[0], m));
    }
  }

  // ---------------------------------------------------------------- sorting by position

  /** g_list_sort with compare_match_info. */
  function SortByFrom(ms: seq<Match>): seq<Match> {
    if ms == [] then [] else InsertByFrom(ms[0], SortByFrom(ms[1..]))
  }

  function InsertByFrom(m: Match, ms: seq<Match>): seq<Match> {
    if ms == [] || m.from <= ms[0].from then [m] + ms else [ms[0]] + InsertByFrom(m, ms[1..])
  }

  ghost predicate Ascending(ms: seq<Match>) {
    |ms| > 1 ==> ms[0].from <= ms[1].from && Ascending(ms[1..])
  }

  /** Every element lies at or after `bound`, strictly apart from the next one. */
  ghost predicate StrictFrom(ms: seq<Match>, bound: nat) {
    ms != [] ==> bound <= ms[0].from && StrictFrom(ms[1..], ms[0].from + 1)
  }

  lemma {:induction false} InsertAscending(m: Match, ms: seq<Match>)
    requires Ascending(ms)
    ensures Ascending(InsertByFrom(m, ms))
    ensures multiset(InsertByFrom(m, ms)) == multiset(ms) + multiset{m}
  {
    if ms == [] || m.from <= ms[0].from {
      assert ([m] + ms)[1..] == ms;
    } else {
      var rest := InsertByFrom(m, ms[1..]);
      InsertAscending(m, ms[1..]);
      assert ([ms[0]] + rest)[1..] == rest;
      assert ms == [ms[0]] + ms[1..];
    }
  }

  lemma {:induction false} SortAscending(ms: seq<Match>)
    ensures Ascending(SortByFrom(ms)) && multiset(SortByFrom(ms)) == multiset(ms)
  {
    if ms != [] {
      SortAscending(ms[1..]);
      InsertAscending(ms[0], SortByFrom(ms[1..]));
      assert ms == [ms[0]] + ms[1..];
    }
  }

  lemma {:induction false} AscendingHead(ms: seq<Match>, m: Match)
    requires Ascending(ms) && m in ms
    ensures ms[0].from <= m.from
  {
    if m != ms[0] {
      assert m in ms[1..];
      AscendingHead(ms[1..], m);
    }
  }

  lemma {:induction false} StrictBound(ms: seq<Match>, bound: nat, m: Match)
    requires StrictFrom(ms, bound) && m in ms
    ensures bound <= m.from
  {
    if m != ms[0] {
      StrictBound(ms[1..], ms[0].from + 1, m);
    }
  }

  lemma HeadsAgree(a: seq<Match>, b: seq<Match>, bound: nat)
    requires Ascending(a) && StrictFrom(b, bound) && multiset(a) == multiset(b) && b != []
    ensures a != [] && a[0] == b[0]
  {
    assert b[0] in multiset(b) && b[0] in a;
    AscendingHead(a, b[0]);
    assert a[0] in multiset(a) && a[0] in b;
    if a[0] != b[0] {
      assert a[0] in b[1..];
      StrictBound(b[1..], b[0].from + 1, a[0]);
      assert false;
    }
  }

  lemma TailsAgree(a: seq<Match>, b: seq<Match>)
    requires a != [] && b != [] && a[0] == b[0] && multiset(a) == multiset(b)
    ensures multiset(a[1..]) == multiset(b[1..])
  {
    assert a == [a[0]] + a[1..] && b == [b[0]] + b[1..];
    assert multiset(a[1..]) == multiset(a) - multiset{a[0]};
    assert multiset(b[1..]) == multiset(b) - multiset{b[0]};
  }

  /** A strictly ascending list is the only ascending arrangement of its elements. */
  lemma {:induction false} SortedUnique(a: seq<Match>, b: seq<Match>, bound: nat)
    requires Ascending(a) && StrictFrom(b, bound) && multiset(a) == multiset(b)
    ensures a == b
    decreases |b|
  {
    if b == [] {
      assert |multiset(a)| == |a|;
    } else {
      HeadsAgree(a, b, bound);
      TailsAgree(a, b);
      SortedUnique(a[1..], b[1..], b[0].from + 1);
      assert a == [a[0]] + a[1..] && b == [b[0]] + b[1..];
    }
  }

  lemma {:induction false} ChainStrict<T>(x: Input<T>, ms: seq<Match>, i: nat, j: nat, iEnd: nat, jEnd: nat, bound: nat)
    requires Chain(x, ms, i, j, iEnd, jEnd) && bound <= i
    ensures StrictFrom(ms, bound)
    decreases |ms|
  {
    if ms != [] {
      ChainStrict(x, ms[1..], ms[0].from + ms[0].size, ms[0].to + ms[0].size, iEnd, jEnd, ms[0].from + 1);
    }
  }

  /** Progress of the queue: every step finds a match or drops a window. */
  lemma StepMeasure(before: multiset<Match>, after: multiset<Match>, m: Match, found: seq<Match>, all: multiset<Match>)
    requires before == after + multiset{m} && multiset(found) + before == all
    ensures multiset([m] + found) + after == all && |after| + 1 == |before|
  {
  }

  /**
   Whatever order the windows were visited in, sorting the matches found by their position in
   `from` gives the in-order list.
   */
  lemma SortedMatches<T>(x: Input<T>, found: seq<Match>)
    requires multiset(found) == multiset(Matches(x, Whole(x)))
    ensures SortByFrom(found) == Matches(x, Whole(x))
  {
    SortAscending(found);
    MatchesChain(x, Whole(x));
    ChainStrict(x, Matches(x, Whole(x)), 0, 0, |x.from|, |x.to|, 0);
    SortedUnique(SortByFrom(found), Matches(x, Whole(x)), 0);
  }
}
