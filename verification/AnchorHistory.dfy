/**
What anchors prove about history (packages/distribution/src/anchor.ts): an anchored range is
tiled by windows and recorded breaks, and an anchor that extends an earlier one leaves what
the earlier one summarised where it was.
*/
module AnchorHistory {
  import opened Prelude
  import opened Digests
  import opened Commitments
  import opened Chains
  import opened Publisher
  import opened Rotations
  import opened SignedChains
  import opened Anchors

  /** Every link is the image of `commit` on one of these windows. */
  ghost predicate GenuineOver(chain: seq<SignedCommitment>, windows: seq<seq<Tick>>) {
    |windows| == |chain| && forall i :: 0 <= i < |chain| ==> CommitsTo(chain[i].commitment, windows[i])
  }

  // ---------------------------------------------------------------- windows in order

  /** Each window of one record starts beyond the one before it; where it does not touch it, it says so. */
  lemma WindowAfter(chain: seq<SignedCommitment>, windows: seq<seq<Tick>>, i: nat)
    requires OneRecord(chain) && GenuineOver(chain, windows) && 0 < i < |chain|
    ensures var previous, link := chain[i - 1].commitment, chain[i].commitment;
      && previous.toSequence < link.fromSequence <= link.toSequence
      && previous.fromSequence <= previous.toSequence
      && (BreakOf(chain, i) == [] ==> link.fromSequence == previous.toSequence + 1)
      && (BreakOf(chain, i) != [] ==>
        && |BreakOf(chain, i)| == 1
        && BreakOf(chain, i)[0].afterSequence == previous.toSequence
        && BreakOf(chain, i)[0].fromSequence == link.fromSequence)
  {
    assert Joins(chain, i);
    CommittedRun(chain[i].commitment, windows[i]);
    CommittedRun(chain[i - 1].commitment, windows[i - 1]);
    hide Commit, CommitsTo;
  }

  lemma WindowSpan(chain: seq<SignedCommitment>, windows: seq<seq<Tick>>, i: nat)
    requires GenuineOver(chain, windows) && i < |chain|
    ensures chain[i].commitment.fromSequence <= chain[i].commitment.toSequence
  {
    CommittedRun(chain[i].commitment, windows[i]);
  }

  lemma {:induction false} WindowsIncrease(chain: seq<SignedCommitment>, windows: seq<seq<Tick>>, i: nat, j: nat)
    requires OneRecord(chain) && GenuineOver(chain, windows) && i < j < |chain|
    ensures chain[i].commitment.toSequence < chain[j].commitment.fromSequence
    decreases j
  {
    hide OneRecord, GenuineOver, BreakOf;
    WindowAfter(chain, windows, j);
    if i < j - 1 {
      WindowsIncrease(chain, windows, i, j - 1);
    }
  }

  lemma EndsInOrder(chain: seq<SignedCommitment>, windows: seq<seq<Tick>>, i: nat, j: nat)
    requires OneRecord(chain) && GenuineOver(chain, windows) && i <= j < |chain|
    ensures chain[i].commitment.toSequence <= chain[j].commitment.toSequence
  {
    if i < j {
      WindowsIncrease(chain, windows, i, j);
      WindowSpan(chain, windows, j);
    }
  }

  // ---------------------------------------------------------------- tiling

  /** A window among the first n covers the sequence. */
  ghost predicate CoveredBy(chain: seq<SignedCommitment>, n: nat, sequence: int)
    requires n <= |chain|
  {
    exists i :: 0 <= i < n && chain[i].commitment.fromSequence <= sequence <= chain[i].commitment.toSequence
  }

  ghost predicate Covered(chain: seq<SignedCommitment>, sequence: int) {
    CoveredBy(chain, |chain|, sequence)
  }

  /** The sequence lies strictly inside a recorded break. */
  ghost predicate InBreak(breaks: seq<AnchorBreak>, sequence: int) {
    exists b :: b in breaks && b.afterSequence < sequence < b.fromSequence
  }

  /** Breaks among the first links end no later than the last of them starts. */
  lemma {:induction false} BreaksBelow(chain: seq<SignedCommitment>, windows: seq<seq<Tick>>, n: nat, b: AnchorBreak)
    requires OneRecord(chain) && GenuineOver(chain, windows) && 0 < n <= |chain| && b in BreaksTo(chain, n)
    ensures chain[0].commitment.toSequence <= b.afterSequence
    ensures b.afterSequence < b.fromSequence <= chain[n - 1].commitment.fromSequence
    decreases n
  {
    hide OneRecord, GenuineOver, BreakOf;
    if n == 1 {
      assert BreaksTo(chain, 1) == BreaksTo(chain, 0) + BreakOf(chain, 0);
      FirstStatesNone(chain);
    } else {
      WindowAfter(chain, windows, n - 1);
      if b in BreaksTo(chain, n - 1) {
        BreaksBelow(chain, windows, n - 1, b);
      } else {
        assert b in BreakOf(chain, n - 1);
        if n > 2 {
          WindowsIncrease(chain, windows, 0, n - 2);
          WindowSpan(chain, windows, n - 2);
        }
      }
    }
  }

  lemma FirstStatesNone(chain: seq<SignedCommitment>)
    requires chain != []
    ensures BreakOf(chain, 0) == []
  {
  }

  /**
  Windows and breaks tile: inside the range the first n links span, a sequence is in a window
  exactly when it is in no break.
  */
  lemma {:induction false} TilesTo(chain: seq<SignedCommitment>, windows: seq<seq<Tick>>, n: nat, sequence: int)
    requires OneRecord(chain) && GenuineOver(chain, windows) && 0 < n <= |chain|
    requires chain[0].commitment.fromSequence <= sequence <= chain[n - 1].commitment.toSequence
    ensures CoveredBy(chain, n, sequence) <==> !InBreak(BreaksTo(chain, n), sequence)
    decreases n
  {
    hide OneRecord, GenuineOver, BreakOf;
    forall b | b in BreaksTo(chain, n)
      ensures b.fromSequence <= chain[n - 1].commitment.fromSequence
    {
      BreaksBelow(chain, windows, n, b);
    }
    if sequence >= chain[n - 1].commitment.fromSequence {
      assert CoveredBy(chain, n, sequence);
    } else {
      WindowAfter(chain, windows, n - 1);
      if sequence <= chain[n - 2].commitment.toSequence {
        TilesTo(chain, windows, n - 1, sequence);
        StepOfTiling(chain, n, sequence);
      } else {
        assert BreakOf(chain, n - 1) != [];
        assert BreakOf(chain, n - 1)[0] in BreaksTo(chain, n);
        forall i | 0 <= i < n
          ensures !(chain[i].commitment.fromSequence <= sequence <= chain[i].commitment.toSequence)
        {
          if i < n - 2 {
            WindowsIncrease(chain, windows, i, n - 2);
            WindowSpan(chain, windows, n - 2);
          }
        }
      }
    }
  }

  /** Below the last window, the last link adds neither cover nor break. */
  lemma StepOfTiling(chain: seq<SignedCommitment>, n: nat, sequence: int)
    requires 1 < n <= |chain|
    requires sequence < chain[n - 1].commitment.fromSequence
    requires forall b :: b in BreakOf(chain, n - 1) ==> b.afterSequence >= sequence
    ensures CoveredBy(chain, n, sequence) <==> CoveredBy(chain, n - 1, sequence)
    ensures InBreak(BreaksTo(chain, n), sequence) <==> InBreak(BreaksTo(chain, n - 1), sequence)
  {
    hide BreakOf;
  }

  /** The anchored range is tiled: every sequence of it is in exactly one of a window and a recorded break. */
  lemma AnchoredRangeTiles(chain: seq<SignedCommitment>, windows: seq<seq<Tick>>, sequence: int)
    requires OneRecord(chain) && GenuineOver(chain, windows)
    requires EntryOf(chain).fromSequence <= sequence <= EntryOf(chain).toSequence
    ensures Covered(chain, sequence) <==> !InBreak(EntryOf(chain).breaks, sequence)
    ensures forall i, j | 0 <= i < j < |chain| :: chain[i].commitment.toSequence < chain[j].commitment.fromSequence
  {
    TilesTo(chain, windows, |chain|, sequence);
    forall i, j | 0 <= i < j < |chain|
      ensures chain[i].commitment.toSequence < chain[j].commitment.fromSequence
    {
      WindowsIncrease(chain, windows, i, j);
    }
  }

  // ---------------------------------------------------------------- one chain extends another

  /** What `extendsAnchor` established of the chains behind two entries for one asset. */
  ghost predicate ChainExtends(a: seq<SignedCommitment>, b: seq<SignedCommitment>) {
    && a != [] && b != []
    && b[0].commitment.fromSequence == a[0].commitment.fromSequence
    && b[|b| - 1].commitment.toSequence >= a[|a| - 1].commitment.toSequence
    && BreaksTo(a, |a|) <= BreaksTo(b, |b|)
    && var k := FirstEndingAt(b, a[|a| - 1].commitment.toSequence);
    && k.Some? && b[k.value].commitment.root == a[|a| - 1].commitment.root
  }

  /** Two chains, each one record over genuine windows. */
  ghost predicate BothGenuine(a: seq<SignedCommitment>, wa: seq<seq<Tick>>, b: seq<SignedCommitment>, wb: seq<seq<Tick>>) {
    OneRecord(a) && GenuineOver(a, wa) && OneRecord(b) && GenuineOver(b, wb)
  }

  /** Where the last piece of the record starts: the last unbound restart among the first n links, or the first link. */
  function LastRestart(chain: seq<SignedCommitment>, n: nat): (s: nat)
    requires 0 < n <= |chain|
    ensures s < n && (s > 0 ==> chain[s].commitment.previousRoot.Blank?)
    ensures forall k :: s < k < n ==> !chain[k].commitment.previousRoot.Blank?
  {
    if n == 1 || chain[n - 1].commitment.previousRoot.Blank? then n - 1 else LastRestart(chain, n - 1)
  }

  /** Where the root of link i + 1's predecessor is bound, the link before it is bound too. */
  lemma SameBefore(a: seq<SignedCommitment>, wa: seq<seq<Tick>>, i: nat,
                   b: seq<SignedCommitment>, wb: seq<seq<Tick>>, j: nat)
    requires BothGenuine(a, wa, b, wb) && b[0].commitment.fromSequence == a[0].commitment.fromSequence
    requires 0 < i < |a| && j < |b| && !a[i].commitment.previousRoot.Blank?
    requires SameRecord(a[i].commitment, b[j].commitment)
    ensures j > 0 && !b[j].commitment.previousRoot.Blank?
    ensures SameRecord(a[i - 1].commitment, b[j - 1].commitment) && wa[i - 1] == wb[j - 1]
  {
    StartsLater(a, wa, i);
    BoundLink(a, wa, i);
    hide OneRecord, CommitsTo, GenuineOver;
    assert Fields(a[i].commitment).previous == Fields(b[j].commitment).previous;
    assert Fields(a[i].commitment).fromSequence == Fields(b[j].commitment).fromSequence;
    BoundLink(b, wb, j);
    WindowCommits(a, wa, i - 1);
    WindowCommits(b, wb, j - 1);
    RootBindsRecord(a[i - 1].commitment, wa[i - 1], b[j - 1].commitment, wb[j - 1]);
  }

  lemma WindowCommits(chain: seq<SignedCommitment>, windows: seq<seq<Tick>>, i: nat)
    requires GenuineOver(chain, windows) && i < |chain|
    ensures |windows| == |chain| && CommitsTo(chain[i].commitment, windows[i])
  {
  }

  lemma StartsLater(chain: seq<SignedCommitment>, windows: seq<seq<Tick>>, i: nat)
    requires OneRecord(chain) && GenuineOver(chain, windows) && 0 < i < |chain|
    ensures chain[0].commitment.fromSequence < chain[i].commitment.fromSequence
  {
    WindowsIncrease(chain, windows, 0, i);
    WindowSpan(chain, windows, 0);
  }

  /** A link that decodes to a whole predecessor is bound to the link before it. */
  lemma BoundLink(chain: seq<SignedCommitment>, windows: seq<seq<Tick>>, i: nat)
    requires OneRecord(chain) && GenuineOver(chain, windows) && 0 < i < |chain|
    ensures Fields(chain[i].commitment).previous.Whole? <==> !chain[i].commitment.previousRoot.Blank?
    ensures !chain[i].commitment.previousRoot.Blank? ==>
      && chain[i - 1].commitment.root.Digits?
      && chain[i - 1].commitment.root == ToHex(chain[i - 1].commitment.root.digest)
      && Fields(chain[i].commitment).previous == Whole(chain[i - 1].commitment.root.digest)
  {
    assert Joins(chain, i);
    CommittedRun(chain[i].commitment, windows[i]);
    CommittedRun(chain[i - 1].commitment, windows[i - 1]);
    hide Commit, CommitsTo;
  }

  lemma OneRootOneWindow(a: seq<SignedCommitment>, wa: seq<seq<Tick>>, i: nat,
                         b: seq<SignedCommitment>, wb: seq<seq<Tick>>, k: nat)
    requires GenuineOver(a, wa) && GenuineOver(b, wb) && i < |a| && k < |b|
    requires a[i].commitment.root == b[k].commitment.root
    ensures |wa| == |a| && |wb| == |b|
    ensures SameRecord(a[i].commitment, b[k].commitment) && wa[i] == wb[k]
  {
    WindowCommits(a, wa, i);
    WindowCommits(b, wb, k);
    hide CommitsTo;
    RootBindsRecord(a[i].commitment, wa[i], b[k].commitment, wb[k]);
  }

  lemma ContinuesPiece(a: seq<SignedCommitment>, i: nat)
    requires i < |a| && LastRestart(a, |a|) < i
    ensures !a[i].commitment.previousRoot.Blank?
  {
  }

  /** The last piece of the earlier record, from i on, stands in the later one, ending at k. */
  lemma {:induction false} TailStands(a: seq<SignedCommitment>, wa: seq<seq<Tick>>, i: nat,
                                      b: seq<SignedCommitment>, wb: seq<seq<Tick>>, k: nat)
    requires BothGenuine(a, wa, b, wb) && b[0].commitment.fromSequence == a[0].commitment.fromSequence
    requires k < |b| && b[k].commitment.root == a[|a| - 1].commitment.root
    requires LastRestart(a, |a|) <= i < |a|
    ensures k >= |a| - 1 - i
    ensures SameRecord(a[i].commitment, b[k - (|a| - 1 - i)].commitment) && wa[i] == wb[k - (|a| - 1 - i)]
    decreases |a| - i
  {
    hide OneRecord, CommitsTo, GenuineOver, LastRestart, SameRecord;
    if i == |a| - 1 {
      OneRootOneWindow(a, wa, i, b, wb, k);
    } else {
      ContinuesPiece(a, i + 1);
      TailStands(a, wa, i + 1, b, wb, k);
      SameBefore(a, wa, i + 1, b, wb, k - (|a| - 1 - (i + 1)));
    }
  }

  /** Links from s to e of one chain are the links from q of the other, windows and all. */
  ghost predicate SamePiece(a: seq<SignedCommitment>, wa: seq<seq<Tick>>, s: nat,
                            b: seq<SignedCommitment>, wb: seq<seq<Tick>>, q: nat)
    requires |wa| == |a| && |wb| == |b|
  {
    && s <= |a| && q + (|a| - s) <= |b|
    && forall i :: s <= i < |a| ==> SameRecord(a[i].commitment, b[q + (i - s)].commitment) && wa[i] == wb[q + (i - s)]
  }

  /** Where the earlier record's last piece stands in the later chain. */
  function Stands(a: seq<SignedCommitment>, b: seq<SignedCommitment>): int
    requires ChainExtends(a, b)
  {
    FirstEndingAt(b, a[|a| - 1].commitment.toSequence).value - (|a| - 1 - LastRestart(a, |a|))
  }

  /**
  Append-only: back to its last unbound break the earlier record stands in the later one
  unchanged; with no unbound break it is a prefix of it.
  */
  lemma LastPieceStands(a: seq<SignedCommitment>, wa: seq<seq<Tick>>, b: seq<SignedCommitment>, wb: seq<seq<Tick>>)
    requires BothGenuine(a, wa, b, wb) && ChainExtends(a, b)
    ensures |wa| == |a| && |wb| == |b| && Stands(a, b) >= 0
    ensures SamePiece(a, wa, LastRestart(a, |a|), b, wb, Stands(a, b))
    ensures LastRestart(a, |a|) == 0 <==> Stands(a, b) == 0
  {
    hide OneRecord, CommitsTo, BreaksTo, FirstEndingAt, LastRestart;
    var s := LastRestart(a, |a|);
    var k := FirstEndingAt(b, a[|a| - 1].commitment.toSequence).value;
    hide GenuineOver;
    WindowCommits(a, wa, 0);
    WindowCommits(b, wb, 0);
    forall i | s <= i < |a|
      ensures k >= |a| - 1 - i
      ensures SameRecord(a[i].commitment, b[k - (|a| - 1 - i)].commitment) && wa[i] == wb[k - (|a| - 1 - i)]
    {
      TailStands(a, wa, i, b, wb, k);
    }
    var q := Stands(a, b);
    FirstTogether(a, wa, s, b, wb, q);
  }

  /** Two places of one window: both are first in their chains or neither is. */
  lemma FirstTogether(a: seq<SignedCommitment>, wa: seq<seq<Tick>>, s: nat,
                      b: seq<SignedCommitment>, wb: seq<seq<Tick>>, q: nat)
    requires BothGenuine(a, wa, b, wb) && s < |a| && q < |b|
    requires b[0].commitment.fromSequence == a[0].commitment.fromSequence
    requires SameRecord(a[s].commitment, b[q].commitment)
    ensures s == 0 <==> q == 0
  {
    hide OneRecord, GenuineOver;
    assert Fields(a[s].commitment).fromSequence == Fields(b[q].commitment).fromSequence;
    if s > 0 {
      StartsLater(a, wa, s);
    }
    if q > 0 {
      StartsLater(b, wb, q);
    }
  }

  // ---------------------------------------------------------------- coverage is fixed

  /** The break of the link that starts where this one does: a link states at most one, and each in its own place. */
  lemma {:induction false} BreakHasLink(chain: seq<SignedCommitment>, n: nat, b: AnchorBreak) returns (m: nat)
    requires n <= |chain| && b in BreaksTo(chain, n)
    ensures 0 < m < n && BreakOf(chain, m) == [b]
    decreases n
  {
    if b in BreaksTo(chain, n - 1) {
      m := BreakHasLink(chain, n - 1, b);
    } else {
      m := n - 1;
    }
  }

  lemma {:induction false} LinkHasBreak(chain: seq<SignedCommitment>, n: nat, m: nat)
    requires m < n <= |chain|
    ensures forall b :: b in BreakOf(chain, m) ==> b in BreaksTo(chain, n)
    decreases n
  {
    if m < n - 1 {
      LinkHasBreak(chain, n - 1, m);
    }
  }

  /** Breaks are recorded in the order the record resumes after them. */
  lemma {:induction false} BreaksIncrease(chain: seq<SignedCommitment>, windows: seq<seq<Tick>>, n: nat, p: nat, r: nat)
    requires OneRecord(chain) && GenuineOver(chain, windows) && n <= |chain|
    requires p < r < |BreaksTo(chain, n)|
    ensures BreaksTo(chain, n)[p].fromSequence < BreaksTo(chain, n)[r].fromSequence
    decreases n
  {
    hide OneRecord, GenuineOver, BreakOf;
    var before := BreaksTo(chain, n - 1);
    if n > 1 {
      WindowAfter(chain, windows, n - 1);
      if r < |before| {
        BreaksIncrease(chain, windows, n - 1, p, r);
      } else {
        assert BreakOf(chain, n - 1) != [];
        assert before[p] in before;
        BreaksBelow(chain, windows, n - 1, before[p]);
      }
    } else {
      FirstStatesNone(chain);
    }
  }

  /** Every break the later chain records at or below the earlier one's end is the earlier one's. */
  lemma BreakIsOld(a: seq<SignedCommitment>, wa: seq<seq<Tick>>, b: seq<SignedCommitment>, wb: seq<seq<Tick>>, m: nat)
    requires BothGenuine(a, wa, b, wb) && ChainExtends(a, b)
    requires 0 < m <= FirstEndingAt(b, a[|a| - 1].commitment.toSequence).value && BreakOf(b, m) != []
    ensures BreakOf(b, m)[0] in BreaksTo(a, |a|)
  {
    hide OneRecord, GenuineOver, BreaksTo, FirstEndingAt, LastRestart, CommitsTo;
    LastPieceStands(a, wa, b, wb);
    var s, q := LastRestart(a, |a|), Stands(a, b);
    if m > q {
      var i := s + (m - q);
      SameBreak(a, wa, i, b, wb, m);
      LinkHasBreak(a, |a|, i);
    } else {
      hide BreakOf;
      LinkHasBreak(b, |b|, m);
      var c := RestartBreak(a, s);
      LinkHasBreak(a, |a|, s);
      assert SameRecord(a[s].commitment, b[q].commitment);
      assert Fields(a[s].commitment).fromSequence == Fields(b[q].commitment).fromSequence;
      BreakBefore(b, wb, m, q);
      EarlierIsPrefix(b, wb, BreaksTo(a, |a|), BreakOf(b, m)[0], c);
    }
  }

  /** One record in two chains states one break, unless it restarts either of them. */
  lemma SameBreak(a: seq<SignedCommitment>, wa: seq<seq<Tick>>, i: nat,
                  b: seq<SignedCommitment>, wb: seq<seq<Tick>>, m: nat)
    requires BothGenuine(a, wa, b, wb) && 0 < i < |a| && 0 < m < |b|
    requires SameRecord(a[i].commitment, b[m].commitment) && !a[i].commitment.previousRoot.Blank?
    ensures BreakOf(a, i) == BreakOf(b, m)
  {
    hide OneRecord, GenuineOver, CommitsTo;
    BoundLink(a, wa, i);
    BoundLink(b, wb, m);
    assert Fields(a[i].commitment) == Fields(b[m].commitment);
    assert Fields(a[i].commitment).fromSequence == Fields(b[m].commitment).fromSequence;
  }

  lemma RestartBreak(chain: seq<SignedCommitment>, s: nat) returns (c: AnchorBreak)
    requires 0 < s < |chain| && chain[s].commitment.previousRoot.Blank?
    ensures c in BreakOf(chain, s) && c.fromSequence == chain[s].commitment.fromSequence
  {
    c := BreakOf(chain, s)[0];
  }

  /** The break a link states is at or below where any later link starts. */
  lemma BreakBefore(chain: seq<SignedCommitment>, windows: seq<seq<Tick>>, m: nat, q: nat)
    requires OneRecord(chain) && GenuineOver(chain, windows) && 0 < m <= q < |chain| && BreakOf(chain, m) != []
    ensures BreakOf(chain, m)[0].fromSequence <= chain[q].commitment.fromSequence
  {
    WindowAfter(chain, windows, m);
    if m < q {
      WindowsIncrease(chain, windows, m, q);
    }
  }

  /** In an increasing list, what is not after an element of a prefix is in the prefix. */
  lemma EarlierIsPrefix(chain: seq<SignedCommitment>, windows: seq<seq<Tick>>,
                        prefix: seq<AnchorBreak>, at: AnchorBreak, c: AnchorBreak)
    requires OneRecord(chain) && GenuineOver(chain, windows)
    requires prefix <= BreaksTo(chain, |chain|) && c in prefix && at in BreaksTo(chain, |chain|)
    requires at.fromSequence <= c.fromSequence
    ensures at in prefix
  {
    hide OneRecord, GenuineOver, BreaksTo;
    var all := BreaksTo(chain, |chain|);
    var p :| 0 <= p < |prefix| && prefix[p] == c;
    var r :| 0 <= r < |all| && all[r] == at;
    if p < r {
      BreaksIncrease(chain, windows, |chain|, p, r);
    }
    assert prefix[r] == at;
  }

  /** The link that states a break starting before link k ends is link k or one before it. */
  lemma BreakPlace(chain: seq<SignedCommitment>, windows: seq<seq<Tick>>, k: nat, at: AnchorBreak) returns (m: nat)
    requires OneRecord(chain) && GenuineOver(chain, windows) && k < |chain|
    requires at in BreaksTo(chain, |chain|) && at.afterSequence < chain[k].commitment.toSequence
    ensures 0 < m <= k && BreakOf(chain, m) == [at]
  {
    hide OneRecord, GenuineOver, BreakOf, BreaksTo;
    m := BreakHasLink(chain, |chain|, at);
    if k < m {
      EndsInOrder(chain, windows, k, m - 1);
    }
    WindowAfter(chain, windows, m);
  }

  /** A break the later chain starts below the earlier one's end is one the earlier one recorded. */
  lemma BreakInRange(a: seq<SignedCommitment>, wa: seq<seq<Tick>>, b: seq<SignedCommitment>, wb: seq<seq<Tick>>, at: AnchorBreak)
    requires BothGenuine(a, wa, b, wb) && ChainExtends(a, b)
    requires at in BreaksTo(b, |b|) && at.afterSequence < a[|a| - 1].commitment.toSequence
    ensures at in BreaksTo(a, |a|)
  {
    hide OneRecord, GenuineOver, BreakOf, BreaksTo, FirstEndingAt;
    var m := BreakPlace(b, wb, FirstEndingAt(b, a[|a| - 1].commitment.toSequence).value, at);
    BreakIsOld(a, wa, b, wb, m);
  }

  /** The two records state the same breaks around any sequence of the earlier range. */
  lemma BreaksFixed(a: seq<SignedCommitment>, wa: seq<seq<Tick>>, b: seq<SignedCommitment>, wb: seq<seq<Tick>>, sequence: int)
    requires BothGenuine(a, wa, b, wb) && ChainExtends(a, b) && sequence <= a[|a| - 1].commitment.toSequence
    ensures InBreak(BreaksTo(a, |a|), sequence) <==> InBreak(BreaksTo(b, |b|), sequence)
  {
    var was, now := BreaksTo(a, |a|), BreaksTo(b, |b|);
    forall at | at in now && at.afterSequence < sequence
      ensures at in was
    {
      BreakInRange(a, wa, b, wb, at);
    }
    hide OneRecord, GenuineOver, BreakOf, BreaksTo, FirstEndingAt;
    assert forall at :: at in was ==> at in now;
  }

  /**
  What was committed stays committed and what was missing stays missing: inside the earlier
  range the later chain covers exactly the sequences the earlier one covered.
  */
  lemma CoverageFixed(a: seq<SignedCommitment>, wa: seq<seq<Tick>>, b: seq<SignedCommitment>, wb: seq<seq<Tick>>, sequence: int)
    requires BothGenuine(a, wa, b, wb) && ChainExtends(a, b)
    requires a[0].commitment.fromSequence <= sequence <= a[|a| - 1].commitment.toSequence
    ensures Covered(a, sequence) <==> Covered(b, sequence)
  {
    hide OneRecord, GenuineOver, BreakOf, BreaksTo, FirstEndingAt, Covered, InBreak;
    AnchoredRangeTiles(a, wa, sequence);
    AnchoredRangeTiles(b, wb, sequence);
    BreaksFixed(a, wa, b, wb, sequence);
  }

  // ---------------------------------------------------------------- anchors over time

  /** The places in both sets of chains that hold one asset's record. */
  ghost predicate Successor(earlier: seq<seq<SignedCommitment>>, i: nat, later: seq<seq<SignedCommitment>>, j: nat)
    requires i < |earlier| && j < |later|
  {
    && ChainExtends(earlier[i], later[j])
    && EntryOf(later[j]).assetId == EntryOf(earlier[i]).assetId
    && |later[j]| >= |earlier[i]|
  }

  /**
  An anchor verified against the one before it: every chain behind the earlier anchor has a
  successor behind the later one, to which the theorems above apply.
  */
  lemma VerifiedAnchorSucceeds(crypto: Crypto, earlier: Anchor, earlierChains: seq<seq<SignedCommitment>>, at: int,
                               later: Anchor, laterChains: seq<seq<SignedCommitment>>, check: AnchorCheck, i: nat)
    returns (j: nat)
    requires Built(earlier, earlierChains, at) && i < |earlierChains|
    requires check.previous == Some(earlier) && AnchorOk(crypto, later, laterChains, check)
    ensures j < |laterChains| && Successor(earlierChains, i, laterChains, j)
    ensures later.at >= earlier.at
  {
    hide OneRecord, SignedChainOk, BreaksTo, FirstEndingAt;
    var before := earlier.entries[i];
    assert EntryExtends(before, later, laterChains);
    var chain := LastChain(laterChains, before.assetId).value;
    j :| 0 <= j < |laterChains| && laterChains[j] == chain;
    SummaryIsEntry(later, laterChains, j, LastEntry(later.entries, before.assetId).value);
  }

  /** The entry for a chain's asset is that chain's summary. */
  lemma SummaryIsEntry(anchor: Anchor, chains: seq<seq<SignedCommitment>>, j: nat, entry: AnchorEntry)
    requires Summarises(anchor, chains) && j < |chains| && chains[j] != []
    requires entry in anchor.entries && entry.assetId == EntryOf(chains[j]).assetId
    ensures entry == EntryOf(chains[j])
  {
    hide OneRecord, EntryOf;
    var p :| 0 <= p < |anchor.entries| && anchor.entries[p] == entry;
    var r :| 0 <= r < |anchor.entries| && anchor.entries[r] == EntryOf(chains[j]);
    assert p == r;
  }

  // ---------------------------------------------------------------- the bound is exact

  function UnsignedGenesis(tick: Tick): SignedCommitment {
    var link := Commitment("a", tick.sequence, tick.sequence, 1, Blank, None,
                           ToHex(Root(LinkFields("a", tick.sequence, tick.sequence, 1, NoBytes), Leaf(tick))));
    SignedCommitment(link, "", "")
  }

  lemma GenesisIsGenuine(tick: Tick)
    requires tick.Encodable()
    ensures CommitsTo(UnsignedGenesis(tick).commitment, [tick])
  {
    assert Leaves([tick]) == [Leaf(tick)];
  }

  /**
  Before an unbound break nothing is bound: two records that agree only after it, with any two
  prices in the window before it, have one summary, so an anchor of either verifies as an extension
  of any anchor of the other that is no younger.
  */
  lemma BeforeUnboundBreakCanChange(
    crypto: Crypto, price: int, other: int, earlier: Anchor, at: int, later: Anchor, after: int, rotations: seq<SignedRotation>)
    requires IsI64(price) && IsI64(other) && price != other && at <= after
    requires Built(earlier, [Restarted(price)], at) && Built(later, [Restarted(other)], after)
    ensures BothGenuine(Restarted(price), RestartedWindows(price), Restarted(other), RestartedWindows(other))
    ensures Restarted(price)[0].commitment.root != Restarted(other)[0].commitment.root
    ensures AnchorOk(crypto, later, [Restarted(other)], AnchorCheck(None, rotations, Some(earlier)))
  {
    var a, b := Restarted(price), Restarted(other);
    GenesisIsGenuine(Tick(1, 0, price));
    GenesisIsGenuine(Tick(1, 0, other));
    GenesisIsGenuine(Tick(3, 0, 0));
    hide CommitsTo;
    PairIsRecord(Tick(1, 0, price), Tick(3, 0, 0));
    PairIsRecord(Tick(1, 0, other), Tick(3, 0, 0));
    hide OneRecord;
    assert FirstEndingAt(b, 3) == Some(1) by {
      assert b[1..] == [UnsignedGenesis(Tick(3, 0, 0))];
    }
    assert EntryOf(a) == EntryOf(b);
    hide FirstEndingAt, BreaksTo;
    SameSummaryExtends(earlier, a, at, later, b, after);
    BuiltAnchorVerifiesIff(crypto, later, [b], after, AnchorCheck(None, rotations, Some(earlier)));
    hide AnchorOk, Extends, Built;
  }

  /** One tick at sequence 1, at this price, and behind an unbound break one at sequence 3. */
  function Restarted(price: int): seq<SignedCommitment> {
    [UnsignedGenesis(Tick(1, 0, price)), UnsignedGenesis(Tick(3, 0, 0))]
  }

  function RestartedWindows(price: int): seq<seq<Tick>> {
    [[Tick(1, 0, price)], [Tick(3, 0, 0)]]
  }

  /** Two chains with one summary and one last link: an anchor of one extends an anchor of the other. */
  lemma SameSummaryExtends(earlier: Anchor, a: seq<SignedCommitment>, at: int, later: Anchor, b: seq<SignedCommitment>, after: int)
    requires a != [] && b != [] && at <= after && EntryOf(a) == EntryOf(b)
    requires Built(earlier, [a], at) && Built(later, [b], after)
    requires var k := FirstEndingAt(b, a[|a| - 1].commitment.toSequence);
      k.Some? && b[k.value].commitment.root == a[|a| - 1].commitment.root
    ensures Extends(earlier, later, [b])
  {
    hide BreaksTo, FirstEndingAt;
    var entry := EntryOf(a);
    assert earlier.entries == [entry] && later.entries == [EntryOf(b)];
    assert LastChain([b], entry.assetId) == Some(b);
    assert LastEntry([EntryOf(b)], entry.assetId) == Some(EntryOf(b));
  }

  lemma PairIsRecord(first: Tick, next: Tick)
    requires first.sequence < next.sequence
    ensures
      var chain := [UnsignedGenesis(first), UnsignedGenesis(next)];
      OneRecord(chain) && BreaksTo(chain, 2) == [AnchorBreak(first.sequence, next.sequence, false)]
  {
    var chain := [UnsignedGenesis(first), UnsignedGenesis(next)];
    assert Joins(chain, 0) && Joins(chain, 1);
    assert BreaksTo(chain, 1) == BreaksTo(chain, 0) + BreakOf(chain, 0);
    assert BreaksTo(chain, 2) == BreaksTo(chain, 1) + BreakOf(chain, 1);
  }
}
