/**
The archive read back (packages/distribution/src/journalFile.ts): a journal becomes ticks
again, and an inclusion proof is served from what the writer left on disk.
*/
module JournalFiles {
  import opened Prelude
  import opened Digests
  import opened Commitments
  import opened Publisher
  import opened PublicationRuns
  import opened PublicationWriter

  /** The non-blank lines of a journal, parsed as far as they are JSON. */
  datatype Header = NotJson | Header(kind: string, version: int, namesInstrument: bool, ticks: Option<int>)

  datatype Row = NotRow | Row(sequence: int, instant: int, price: int)

  datatype JournalText = NoLines | JournalText(header: Header, rows: seq<Row>)

  datatype JournalError =
    | EmptyJournal
    | BadHeader
    | NotATick(row: nat)
    | Gap(row: nat)
    | WrongCount

  const JOURNAL_KIND := "otc-tick-journal"

  // ---------------------------------------------------------------- readJournalFile

  /** Three safe integers, and an instant the core accepts. */
  predicate RowReadable(row: Row) {
    && row.Row? && IsSafeInteger(row.sequence) && IsSafeInteger(row.instant) && IsSafeInteger(row.price)
    && 0 <= row.instant <= MAX_EPOCH_MILLIS
  }

  function TickOf(row: Row): Tick {
    if row.Row? then Tick(row.sequence, row.instant, row.price) else Tick(0, 0, 0)
  }

  function TicksOf(rows: seq<Row>): (ticks: seq<Tick>)
    ensures |ticks| == |rows|
  {
    seq(|rows|, i requires 0 <= i < |rows| => TickOf(rows[i]))
  }

  predicate HeaderReadable(header: Header) {
    header.Header? && header.kind == JOURNAL_KIND && header.version == 1 && header.namesInstrument
  }

  predicate Readable(text: JournalText) {
    && text.JournalText? && HeaderReadable(text.header)
    && (forall i :: 0 <= i < |text.rows| ==> RowReadable(text.rows[i]))
    && Contiguous(TicksOf(text.rows))
    && (text.header.ticks.Some? ==> text.header.ticks.value == |text.rows|)
  }

  /** `readJournalFile`, line by line. */
  method ReadJournal(text: JournalText) returns (r: Result<seq<Tick>, JournalError>)
    ensures r.Ok? <==> Readable(text)
    ensures r.Ok? ==> text.JournalText? && r.value == TicksOf(text.rows)
  {
    if text.NoLines? {
      return Err(EmptyJournal);
    }
    if !HeaderReadable(text.header) {
      return Err(BadHeader);
    }
    var ticks: seq<Tick> := [];
    var i := 0;
    while i < |text.rows|
      invariant 0 <= i <= |text.rows| && |ticks| == i
      invariant forall k :: 0 <= k < i ==> RowReadable(text.rows[k]) && ticks[k] == TickOf(text.rows[k])
      invariant Contiguous(ticks)
    {
      var row := text.rows[i];
      if !RowReadable(row) {
        return Err(NotATick(i));
      }
      if i > 0 && row.sequence != ticks[i - 1].sequence + 1 {
        assert TicksOf(text.rows)[i].sequence != TicksOf(text.rows)[0].sequence + i;
        return Err(Gap(i));
      }
      ticks := ticks + [TickOf(row)];
      i := i + 1;
    }
    assert ticks == TicksOf(text.rows);
    if text.header.ticks.Some? && text.header.ticks.value != |ticks| {
      return Err(WrongCount);
    }
    return Ok(ticks);
  }

  /** What a journal reads as. */
  function Read(text: JournalText): Option<seq<Tick>> {
    if Readable(text) then Some(TicksOf(text.rows)) else None
  }

  /** What the writer writes for a window. */
  function Written(journal: Journal): JournalText {
    JournalText(Header(JOURNAL_KIND, 1, true, Some(journal.count)),
                seq(|journal.rows|, i requires 0 <= i < |journal.rows| =>
                  Row(journal.rows[i].sequence, journal.rows[i].instant, journal.rows[i].price)))
  }

  /** A window's journal reads back as the window. */
  lemma WrittenReads(ticks: seq<Tick>)
    requires AllPublished(ticks) && Contiguous(ticks)
    ensures Read(Written(Journal(|ticks|, ticks))) == Some(ticks)
  {
    var text := Written(Journal(|ticks|, ticks));
    assert TicksOf(text.rows) == ticks;
    forall i | 0 <= i < |text.rows|
      ensures RowReadable(text.rows[i])
    {
      assert Published(ticks[i]);
    }
  }

  // ---------------------------------------------------------------- proveFromPublication

  /** An asset's directory: absent, without a commitments file yet, or with both kinds of file. */
  datatype Directory =
    | NoDirectory
    | NoFile
    | Archived(links: seq<SignedCommitment>, journals: map<(int, int), JournalText>)

  datatype Answer =
    | Proved(signed: SignedCommitment, proof: InclusionProof, linksRead: nat)
    | Uncommitted(committedThrough: Option<int>, interval: Option<(int, int)>)
    | NotPublished

  datatype ProofRefusal =
    | BadSequence
    | NoJournal
    | BadJournal(journal: JournalError)
    | DoesNotMatch
    | DoesNotCommit(commitment: CommitmentError)
    | DoesNotHash

  /** Where the stream stops: the first link that starts beyond the sequence or ends at or beyond it. */
  function Stop(links: seq<SignedCommitment>, sequence: int): (i: nat)
    ensures i <= |links|
    ensures forall k :: 0 <= k < i ==>
      links[k].commitment.fromSequence <= sequence && links[k].commitment.toSequence < sequence
    ensures i < |links| ==> sequence < links[i].commitment.fromSequence || sequence <= links[i].commitment.toSequence
  {
    if links == [] then 0
    else if sequence < links[0].commitment.fromSequence || sequence <= links[0].commitment.toSequence then 0
    else
      var rest := Stop(links[1..], sequence);
      assert forall k :: 1 <= k < rest + 1 ==> links[k] == links[1..][k - 1];
      rest + 1
  }

  /** The ticks a window's journal may be served from: as many as the link counts, and hashing to its root. */
  function Trusted(link: Commitment, text: JournalText): Option<seq<Tick>> {
    match Read(text)
    case None => None
    case Some(ticks) =>
      if ticks == [] || ticks[0].sequence != link.fromSequence || |ticks| != link.count then None
      else
        match Commit(link.assetId, ticks, link.previousRoot, link.resumesAfter)
        case Err(_) => None
        case Ok(recomputed) => if recomputed.root == link.root then Some(ticks) else None
  }

  /** The answer for a sequence, or None where the source throws. */
  function AnswerFor(directory: Directory, sequence: int): Option<Answer> {
    if !IsSafeInteger(sequence) || sequence < 1 then None
    else
      match directory
      case NoDirectory => Some(NotPublished)
      case NoFile => Some(Uncommitted(None, None))
      case Archived(links, journals) =>
        var i := Stop(links, sequence);
        if i == |links| then Some(Uncommitted(LastEnd(links, i), None))
        else
          var link := links[i].commitment;
          if sequence < link.fromSequence then
            Some(Uncommitted(None, if i == 0 then None else Some((links[i - 1].commitment.toSequence, link.fromSequence))))
          else ServeWindow(links[i], journals, sequence, i + 1)
  }

  function ServeWindow(signed: SignedCommitment, journals: map<(int, int), JournalText>, sequence: int, linksRead: nat)
    : Option<Answer>
  {
    var link := signed.commitment;
    var name := (link.fromSequence, link.toSequence);
    if name !in journals then None
    else
      match Trusted(link, journals[name])
      case None => None
      case Some(ticks) =>
        match ProveInclusion(ticks, sequence)
        case Err(_) => None
        case Ok(proof) => Some(Proved(signed, proof, linksRead))
  }

  function LastEnd(links: seq<SignedCommitment>, n: nat): Option<int>
    requires n <= |links|
  {
    if n == 0 then None else Some(links[n - 1].commitment.toSequence)
  }

  /** One window's journal read, matched, hashed again and proved from. */
  method Serve(signed: SignedCommitment, journals: map<(int, int), JournalText>, sequence: int, linksRead: nat)
    returns (r: Result<Answer, ProofRefusal>)
    ensures r.Ok? <==> ServeWindow(signed, journals, sequence, linksRead).Some?
    ensures r.Ok? ==> Some(r.value) == ServeWindow(signed, journals, sequence, linksRead)
    ensures r.Ok? ==> r.value.Proved? && r.value.signed == signed && r.value.linksRead == linksRead
    ensures var link := signed.commitment;
      var name := (link.fromSequence, link.toSequence);
      && (r == Err(NoJournal) <==> name !in journals)
      && (r.Err? && r.error.BadJournal? <==> name in journals && Read(journals[name]).None?)
      && (r == Err(DoesNotMatch) <==>
        && name in journals && Read(journals[name]).Some?
        && var ticks := Read(journals[name]).value;
           ticks == [] || ticks[0].sequence != link.fromSequence || |ticks| != link.count)
      && r != Err(BadSequence)
  {
    hide Commit, ProveInclusion, Readable, TicksOf;
    var link := signed.commitment;
    if (link.fromSequence, link.toSequence) !in journals {
      return Err(NoJournal);
    }
    var journal := ReadJournal(journals[(link.fromSequence, link.toSequence)]);
    if journal.Err? {
      return Err(BadJournal(journal.error));
    }
    var ticks := journal.value;
    if |ticks| == 0 || ticks[0].sequence != link.fromSequence || |ticks| != link.count {
      return Err(DoesNotMatch);
    }
    var recomputed := Commit(link.assetId, ticks, link.previousRoot, link.resumesAfter);
    if recomputed.Err? {
      return Err(DoesNotCommit(recomputed.error));
    }
    if recomputed.value.root != link.root {
      return Err(DoesNotHash);
    }
    var proof := ComputeProof(ticks, sequence);
    if proof.Err? {
      return Err(DoesNotCommit(proof.error));
    }
    return Ok(Proved(signed, proof.value, linksRead));
  }

  /** `proveFromPublication`: stream the links until one spans the sequence. */
  method ProveFromPublication(directory: Directory, sequence: int) returns (r: Result<Answer, ProofRefusal>)
    ensures r.Ok? <==> AnswerFor(directory, sequence).Some?
    ensures r.Ok? ==> Some(r.value) == AnswerFor(directory, sequence)
    ensures r == Err(BadSequence) <==> !IsSafeInteger(sequence) || sequence < 1
    ensures r == Ok(NotPublished) <==> IsSafeInteger(sequence) && sequence >= 1 && directory.NoDirectory?
  {
    hide ServeWindow;
    if !IsSafeInteger(sequence) || sequence < 1 {
      return Err(BadSequence);
    }
    if directory.NoDirectory? {
      return Ok(NotPublished);
    }
    if directory.NoFile? {
      return Ok(Uncommitted(None, None));
    }
    var links := directory.links;
    var committedThrough: Option<int> := None;
    var linksRead := 0;
    while linksRead < |links|
      invariant 0 <= linksRead <= |links|
      invariant committedThrough == LastEnd(links, linksRead)
      invariant forall k :: 0 <= k < linksRead ==>
        links[k].commitment.fromSequence <= sequence && links[k].commitment.toSequence < sequence
    {
      var link := links[linksRead].commitment;
      var previous := committedThrough;
      committedThrough := Some(link.toSequence);
      linksRead := linksRead + 1;
      if sequence < link.fromSequence {
        StopIs(links, sequence, linksRead - 1);
        return Ok(Uncommitted(None, if previous.None? then None else Some((previous.value, link.fromSequence))));
      }
      if sequence <= link.toSequence {
        StopIs(links, sequence, linksRead - 1);
        r := Serve(links[linksRead - 1], directory.journals, sequence, linksRead);
        return;
      }
    }
    StopIs(links, sequence, linksRead);
    return Ok(Uncommitted(committedThrough, None));
  }

  lemma StopIs(links: seq<SignedCommitment>, sequence: int, i: nat)
    requires i <= |links|
    requires forall k :: 0 <= k < i ==>
      links[k].commitment.fromSequence <= sequence && links[k].commitment.toSequence < sequence
    requires i < |links| ==> sequence < links[i].commitment.fromSequence || sequence <= links[i].commitment.toSequence
    ensures Stop(links, sequence) == i
  {
  }

  // ---------------------------------------------------------------- which answer a sequence gets

  /** Every link before i is spent: it ends before the sequence, having started no later. Link i is not. */
  ghost predicate FirstReaching(links: seq<SignedCommitment>, sequence: int, i: nat)
    requires i <= |links|
  {
    && (forall k :: 0 <= k < i ==>
      links[k].commitment.fromSequence <= sequence && links[k].commitment.toSequence < sequence)
    && (i < |links| ==> sequence < links[i].commitment.fromSequence || sequence <= links[i].commitment.toSequence)
  }

  /**
  Exactly which answer a sequence gets of any directory, genuine or not: unpublished without a
  directory, uncommitted without a file, the last committed sequence when every link is spent, the two
  edges of a gap when the first link that reaches the sequence starts beyond it, and otherwise that
  link's own proof or a refusal.
  */
  lemma AnswersAre(directory: Directory, sequence: int, i: nat)
    requires directory.Archived? ==> i <= |directory.links| && FirstReaching(directory.links, sequence, i)
    ensures AnswerFor(directory, sequence) == Some(NotPublished) <==>
      IsSafeInteger(sequence) && sequence >= 1 && directory.NoDirectory?
    ensures !IsSafeInteger(sequence) || sequence < 1 ==> AnswerFor(directory, sequence).None?
    ensures IsSafeInteger(sequence) && sequence >= 1 && directory.NoFile? ==>
      AnswerFor(directory, sequence) == Some(Uncommitted(None, None))
    ensures IsSafeInteger(sequence) && sequence >= 1 && directory.Archived? ==>
      var links := directory.links;
      if i == |links| then
        AnswerFor(directory, sequence) ==
          Some(Uncommitted(if links == [] then None else Some(links[|links| - 1].commitment.toSequence), None))
      else if sequence < links[i].commitment.fromSequence then
        AnswerFor(directory, sequence) ==
          Some(Uncommitted(None, if i == 0 then None
                                 else Some((links[i - 1].commitment.toSequence, links[i].commitment.fromSequence))))
      else
        AnswerFor(directory, sequence).Some? ==>
          var answer := AnswerFor(directory, sequence).value;
          answer.Proved? && answer.signed == links[i] && answer.linksRead == i + 1
  {
    if directory.Archived? {
      StopIs(directory.links, sequence, i);
    }
    hide Stop, Trusted, ProveInclusion;
  }

  // ---------------------------------------------------------------- what a served proof is worth

  /** The journal for a window reads as exactly these ticks. */
  predicate JournalHolds(journals: map<(int, int), JournalText>, link: Commitment, ticks: seq<Tick>) {
    var name := (link.fromSequence, link.toSequence);
    name in journals && Read(journals[name]) == Some(ticks)
  }

  /** A journal is trusted exactly when it holds what was committed: any other row, count or order is refused. */
  lemma TrustedIff(link: Commitment, ticks: seq<Tick>, text: JournalText)
    requires CommitsTo(link, ticks)
    ensures Trusted(link, text) == if Read(text) == Some(ticks) then Some(ticks) else None
  {
    CommittedRun(link, ticks);
    hide Readable, TicksOf;
    var read := Read(text);
    if read.Some? {
      var recomputed := Commit(link.assetId, read.value, link.previousRoot, link.resumesAfter);
      if recomputed.Ok? && recomputed.value.root == link.root {
        CommitIsGenuine(link.assetId, read.value, link.previousRoot, link.resumesAfter);
        RootBindsRecord(recomputed.value, read.value, link, ticks);
      }
    }
  }

  lemma CommitIsGenuine(assetId: string, ticks: seq<Tick>, previousRoot: Hex, resumesAfter: Option<int>)
    requires Commit(assetId, ticks, previousRoot, resumesAfter).Ok?
    ensures CommitsTo(Commit(assetId, ticks, previousRoot, resumesAfter).value, ticks)
  {
  }

  /**
  For a genuine link, a proof is served for a sequence of its window exactly when the window's
  journal still holds the committed run, and what is served names the committed tick and verifies.
  One changed tick anywhere in the window withholds every proof of the window.
  */
  lemma ServedIff(signed: SignedCommitment, ticks: seq<Tick>, journals: map<(int, int), JournalText>,
                  sequence: int, linksRead: nat)
    requires CommitsTo(signed.commitment, ticks) && AllPublished(ticks) && IsSafeInteger(|ticks|)
    requires signed.commitment.fromSequence <= sequence <= signed.commitment.toSequence
    ensures ServeWindow(signed, journals, sequence, linksRead).Some? <==> JournalHolds(journals, signed.commitment, ticks)
    ensures ServeWindow(signed, journals, sequence, linksRead).Some? ==>
      && ProveInclusion(ticks, sequence).Ok?
      && var proof := ProveInclusion(ticks, sequence).value;
        && ServeWindow(signed, journals, sequence, linksRead) == Some(Proved(signed, proof, linksRead))
        && Accepts(signed.commitment, proof)
        && proof.Named() == ticks[sequence - signed.commitment.fromSequence]
  {
    var link := signed.commitment;
    CommittedRun(link, ticks);
    InclusionComplete(link, ticks, sequence);
    var name := (link.fromSequence, link.toSequence);
    hide Trusted, Accepts, ProveInclusion, Read, CommitsTo;
    if name in journals {
      TrustedIff(link, ticks, journals[name]);
    }
  }

  /** Whatever is on disk beside genuine links: an answer that proves, proves the committed tick. */
  lemma ProofsAreHonest(directory: Directory, windows: seq<seq<Tick>>, sequence: int)
    requires directory.Archived? && |windows| == |directory.links|
    requires forall i :: 0 <= i < |windows| ==>
      CommitsTo(directory.links[i].commitment, windows[i]) && AllPublished(windows[i]) && IsSafeInteger(|windows[i]|)
    requires var answer := AnswerFor(directory, sequence); answer.Some? && answer.value.Proved?
    ensures
      var i, answer := Stop(directory.links, sequence), AnswerFor(directory, sequence).value;
      && i < |directory.links| && answer.signed == directory.links[i] && answer.linksRead == i + 1
      && directory.links[i].commitment.fromSequence <= sequence <= directory.links[i].commitment.toSequence
      && Accepts(answer.signed.commitment, answer.proof)
      && sequence - answer.signed.commitment.fromSequence < |windows[i]|
      && answer.proof.Named() == windows[i][sequence - answer.signed.commitment.fromSequence]
  {
    hide CommitsTo, Accepts, Trusted, ProveInclusion;
    var i := Stop(directory.links, sequence);
    CommittedRun(directory.links[i].commitment, windows[i]);
    ServedIff(directory.links[i], windows[i], directory.journals, sequence, i + 1);
  }

  // ---------------------------------------------------------------- round trip

  /** The directory a run leaves. */
  function DirectoryOf(archive: seq<ClosedWindow>): Directory {
    if archive == [] then NoFile
    else
      var files := FilesOf(archive);
      Archived(files.links, map name | name in files.journals :: Written(files.journals[name]))
  }

  function Name(w: ClosedWindow): (int, int) {
    (w.signed.commitment.fromSequence, w.signed.commitment.toSequence)
  }

  /** The last window written under window i's name: a later window over the same range replaces its journal. */
  function LastNamed(archive: seq<ClosedWindow>, i: nat): (k: nat)
    requires i < |archive|
    ensures i <= k < |archive| && Name(archive[k]) == Name(archive[i])
    ensures forall j :: k < j < |archive| ==> Name(archive[j]) != Name(archive[i])
    decreases |archive|
  {
    var n := |archive| - 1;
    if Name(archive[n]) == Name(archive[i]) then n else LastNamed(archive[..n], i)
  }

  lemma {:induction false} JournalIsLast(archive: seq<ClosedWindow>, i: nat)
    requires i < |archive|
    ensures Name(archive[i]) in FilesOf(archive).journals
    ensures var w := archive[LastNamed(archive, i)];
      FilesOf(archive).journals[Name(archive[i])] == Journal(|w.ticks|, w.ticks)
    decreases |archive|
  {
    var n := |archive| - 1;
    if Name(archive[n]) != Name(archive[i]) {
      JournalIsLast(archive[..n], i);
    }
  }

  lemma WindowFacts(settings: Settings, archive: seq<ClosedWindow>, i: nat)
    requires ArchiveSound(settings, archive) && i < |archive|
    ensures CommitsTo(archive[i].signed.commitment, archive[i].ticks)
    ensures AllPublished(archive[i].ticks) && Contiguous(archive[i].ticks) && archive[i].ticks != []
    ensures IsSafeInteger(|archive[i].ticks| - 1)
    ensures 0 <= Name(archive[i]).0 <= Name(archive[i]).1
  {
    WindowEnds(settings, archive[i]);
    CommittedRun(archive[i].signed.commitment, archive[i].ticks);
  }

  /** The journal of window i's name still holds window i. */
  predicate JournalKept(archive: seq<ClosedWindow>, i: nat)
    requires i < |archive|
  {
    archive[LastNamed(archive, i)].ticks == archive[i].ticks
  }

  /** The answer is window i's proof of the sequence, and the proof is accepted and names its tick. */
  predicate ProvesFrom(archive: seq<ClosedWindow>, i: nat, sequence: int, answer: Option<Answer>)
    requires i < |archive|
  {
    var w := archive[i];
    && answer.Some? && answer.value.Proved?
    && answer.value.signed == w.signed && answer.value.linksRead == i + 1
    && Accepts(w.signed.commitment, answer.value.proof)
    && 0 <= sequence - w.signed.commitment.fromSequence < |w.ticks|
    && answer.value.proof.Named() == w.ticks[sequence - w.signed.commitment.fromSequence]
  }

  /** At a link that spans the sequence, the proof is served if its journal is kept, and refused if it is not. */
  lemma SpanningLinkServes(settings: Settings, archive: seq<ClosedWindow>, i: nat, sequence: int)
    requires ArchiveSound(settings, archive) && i < |archive| && 1 <= sequence && IsSafeInteger(sequence)
    requires Stop(FilesOf(archive).links, sequence) == i
    requires Name(archive[i]).0 <= sequence <= Name(archive[i]).1 && IsSafeInteger(|archive[i].ticks|)
    ensures JournalKept(archive, i) ==> ProvesFrom(archive, i, sequence, AnswerFor(DirectoryOf(archive), sequence))
    ensures !JournalKept(archive, i) ==> AnswerFor(DirectoryOf(archive), sequence) == None
  {
    hide ArchiveSound, CommitsTo, Accepts, ProveInclusion, ServeWindow, Read, FilesOf, Written;
    var k := LastNamed(archive, i);
    WindowFacts(settings, archive, i);
    WindowFacts(settings, archive, k);
    CommittedRun(archive[i].signed.commitment, archive[i].ticks);
    JournalIsLast(archive, i);
    WrittenReads(archive[k].ticks);
    var directory := DirectoryOf(archive);
    assert directory.journals[Name(archive[i])] == Written(Journal(|archive[k].ticks|, archive[k].ticks));
    ServedIff(archive[i].signed, archive[i].ticks, directory.journals, sequence, i + 1);
  }

  /** What a link that starts beyond the sequence makes the stream say: the gap before it, as the file lists links. */
  function GapBefore(archive: seq<ClosedWindow>, i: nat): Answer
    requires i < |archive|
  {
    Uncommitted(None, if i == 0 then None else Some((Name(archive[i - 1]).1, Name(archive[i]).0)))
  }

  /** At a link that starts beyond the sequence no window is read, whatever stands after it. */
  lemma LaterLinkHides(archive: seq<ClosedWindow>, i: nat, sequence: int)
    requires i < |archive| && 1 <= sequence && IsSafeInteger(sequence)
    requires Stop(FilesOf(archive).links, sequence) == i && sequence < Name(archive[i]).0
    ensures AnswerFor(DirectoryOf(archive), sequence) == Some(GapBefore(archive, i))
  {
  }

  lemma NoLinkStops(archive: seq<ClosedWindow>, sequence: int)
    requires 1 <= sequence && IsSafeInteger(sequence) && Stop(FilesOf(archive).links, sequence) == |archive|
    ensures AnswerFor(DirectoryOf(archive), sequence).Some? && AnswerFor(DirectoryOf(archive), sequence).value.Uncommitted?
  {
  }

  /**
  Any record, old ground or not, and any sequence: a proof is served exactly when the first link
  that starts beyond the sequence or ends at or beyond it spans it, and the journal of that link's
  name still holds its window.
  */
  lemma ArchiveServes(settings: Settings, archive: seq<ClosedWindow>, sequence: int)
    requires ArchiveSound(settings, archive) && 1 <= sequence && IsSafeInteger(sequence)
    requires forall i :: 0 <= i < |archive| ==> IsSafeInteger(|archive[i].ticks|)
    ensures
      var answer, i := AnswerFor(DirectoryOf(archive), sequence), Stop(FilesOf(archive).links, sequence);
      && (answer.Some? && answer.value.Proved? <==>
        i < |archive| && Name(archive[i]).0 <= sequence && JournalKept(archive, i))
      && (answer.Some? && answer.value.Proved? ==> ProvesFrom(archive, i, sequence, answer))
  {
    hide ArchiveSound, AnswerFor, FilesOf, DirectoryOf, JournalKept, ProvesFrom;
    var i := Stop(FilesOf(archive).links, sequence);
    if i == |archive| {
      NoLinkStops(archive, sequence);
    } else if sequence < Name(archive[i]).0 {
      LaterLinkHides(archive, i, sequence);
    } else {
      LinkIsWindow(archive, i);
      SpanningLinkServes(settings, archive, i, sequence);
      if JournalKept(archive, i) {
        ProvesIsProved(archive, i, sequence, AnswerFor(DirectoryOf(archive), sequence));
      }
    }
  }

  lemma LinkIsWindow(archive: seq<ClosedWindow>, i: nat)
    requires i < |archive|
    ensures FilesOf(archive).links[i] == archive[i].signed
  {
  }

  lemma ProvesIsProved(archive: seq<ClosedWindow>, i: nat, sequence: int, answer: Option<Answer>)
    requires i < |archive| && ProvesFrom(archive, i, sequence, answer)
    ensures answer.Some? && answer.value.Proved?
  {
  }

  predicate Spans(w: ClosedWindow, sequence: int) {
    Name(w).0 <= sequence <= Name(w).1
  }

  /** Some window written before window j starts beyond the sequence. */
  predicate Hidden(archive: seq<ClosedWindow>, j: nat, sequence: int)
    requires j < |archive|
  {
    exists k :: 0 <= k < j && Name(archive[k]).0 > sequence
  }

  /**
  Which committed sequences have no proof, in terms of the windows alone: those of a window that
  was written after one starting beyond them, and those of a window whose journal a later window
  over the same range replaced with other ticks. The first are answered as if they were never
  committed, and may be called a gap the file in fact covers; the second are refused.
  */
  lemma CommittedIsProvedIff(settings: Settings, archive: seq<ClosedWindow>, j: nat, sequence: int)
    requires ArchiveSound(settings, archive) && 1 <= sequence && IsSafeInteger(sequence)
    requires forall i :: 0 <= i < |archive| ==> IsSafeInteger(|archive[i].ticks|)
    requires j < |archive| && Spans(archive[j], sequence) && forall k :: 0 <= k < j ==> !Spans(archive[k], sequence)
    ensures
      var answer := AnswerFor(DirectoryOf(archive), sequence);
      && (answer.Some? && answer.value.Proved? <==> !Hidden(archive, j, sequence) && JournalKept(archive, j))
      && (answer.Some? && answer.value.Proved? ==> ProvesFrom(archive, j, sequence, answer))
      && (answer.None? <==> !Hidden(archive, j, sequence) && !JournalKept(archive, j))
      && (Hidden(archive, j, sequence) ==>
        exists h | 0 <= h < j :: Name(archive[h]).0 > sequence && answer == Some(GapBefore(archive, h)))
  {
    hide ArchiveSound, AnswerFor, FilesOf, DirectoryOf, JournalKept, ProvesFrom, GapBefore;
    var i := Stop(FilesOf(archive).links, sequence);
    StopAmongWindows(archive, j, sequence);
    if Hidden(archive, j, sequence) {
      LaterLinkHides(archive, i, sequence);
      GapIsNoProof(archive, i);
    } else {
      SpanningLinkServes(settings, archive, j, sequence);
      if JournalKept(archive, j) {
        ProvesIsProved(archive, j, sequence, AnswerFor(DirectoryOf(archive), sequence));
      }
    }
  }

  lemma GapIsNoProof(archive: seq<ClosedWindow>, i: nat)
    requires i < |archive|
    ensures GapBefore(archive, i).Uncommitted?
  {
  }

  /** The stream stops at the first window spanning the sequence, or at one before it that starts beyond it. */
  lemma StopAmongWindows(archive: seq<ClosedWindow>, j: nat, sequence: int)
    requires j < |archive| && Spans(archive[j], sequence) && forall k :: 0 <= k < j ==> !Spans(archive[k], sequence)
    ensures var i := Stop(FilesOf(archive).links, sequence);
      && (Hidden(archive, j, sequence) ==> i < j && Name(archive[i]).0 > sequence)
      && (!Hidden(archive, j, sequence) ==> i == j)
  {
    var links := FilesOf(archive).links;
    var i := Stop(links, sequence);
    forall k | 0 <= k < |archive|
      ensures links[k] == archive[k].signed
    {
      LinkIsWindow(archive, k);
    }
    hide FilesOf;
    assert links[j] == archive[j].signed;
    assert i <= j;
    if i < j {
      assert !Spans(archive[i], sequence);
    }
  }

  /** Windows of a record that only went forward come in order. */
  lemma {:induction false} ForwardOrder(settings: Settings, archive: seq<ClosedWindow>, i: nat, j: nat)
    requires ArchiveSound(settings, archive) && OnlyForward(archive) && i < j < |archive|
    ensures Name(archive[i]).1 < Name(archive[j]).0
    decreases j
  {
    WindowFacts(settings, archive, j - 1);
    assert archive[j].signed.commitment.fromSequence > archive[j - 1].signed.commitment.toSequence;
    if i < j - 1 {
      ForwardOrder(settings, archive, i, j - 1);
    }
  }

  /** In such a record the stream stops at the window a sequence is in, or the first one after it. */
  lemma ForwardStop(settings: Settings, archive: seq<ClosedWindow>, i: nat, sequence: int)
    requires ArchiveSound(settings, archive) && OnlyForward(archive) && i <= |archive|
    requires i > 0 ==> Name(archive[i - 1]).1 < sequence
    requires i < |archive| ==> sequence <= Name(archive[i]).1
    ensures Stop(FilesOf(archive).links, sequence) == i
  {
    hide ArchiveSound, OnlyForward;
    forall k | 0 <= k < i
      ensures Name(archive[k]).0 <= sequence && Name(archive[k]).1 < sequence
    {
      WindowFacts(settings, archive, k);
      WindowFacts(settings, archive, i - 1);
      if k < i - 1 {
        ForwardOrder(settings, archive, k, i - 1);
      }
    }
    StopIs(FilesOf(archive).links, sequence, i);
  }

  /** Every committed tick of a record that only went forward has a proof, and the proof verifies. */
  lemma CommittedIsProved(settings: Settings, archive: seq<ClosedWindow>, i: nat, sequence: int)
    requires ArchiveSound(settings, archive) && OnlyForward(archive) && i < |archive|
    requires Name(archive[i]).0 <= sequence <= Name(archive[i]).1
    requires 1 <= sequence && IsSafeInteger(sequence) && IsSafeInteger(|archive[i].ticks|)
    ensures
      var answer, w := AnswerFor(DirectoryOf(archive), sequence), archive[i];
      && answer.Some? && answer.value.Proved?
      && answer.value.signed == w.signed && answer.value.linksRead == i + 1
      && Accepts(w.signed.commitment, answer.value.proof)
      && answer.value.proof.Named() == w.ticks[sequence - w.signed.commitment.fromSequence]
  {
    hide ArchiveSound, OnlyForward, AnswerFor, DirectoryOf, Accepts, ProveInclusion;
    if i > 0 {
      ForwardOrder(settings, archive, i - 1, i);
    }
    ForwardStop(settings, archive, i, sequence);
    var k := LastNamed(archive, i);
    WindowFacts(settings, archive, i);
    if i < k {
      ForwardOrder(settings, archive, i, k);
    }
    SpanningLinkServes(settings, archive, i, sequence);
  }

  /** A sequence between two windows is answered with exactly the two edges of its gap. */
  lemma GapIsNamed(settings: Settings, archive: seq<ClosedWindow>, i: nat, sequence: int)
    requires ArchiveSound(settings, archive) && OnlyForward(archive) && 0 < i < |archive|
    requires Name(archive[i - 1]).1 < sequence < Name(archive[i]).0 && 1 <= sequence && IsSafeInteger(sequence)
    ensures AnswerFor(DirectoryOf(archive), sequence)
      == Some(Uncommitted(None, Some((Name(archive[i - 1]).1, Name(archive[i]).0))))
  {
    hide ArchiveSound, OnlyForward;
    WindowFacts(settings, archive, i);
    ForwardStop(settings, archive, i, sequence);
  }

  /** Before the first window nothing is stated; beyond the last, how far the record is committed. */
  lemma OutsideIsUncommitted(settings: Settings, archive: seq<ClosedWindow>, sequence: int)
    requires ArchiveSound(settings, archive) && OnlyForward(archive) && archive != []
    requires 1 <= sequence && IsSafeInteger(sequence)
    ensures sequence < Name(archive[0]).0 ==>
      AnswerFor(DirectoryOf(archive), sequence) == Some(Uncommitted(None, None))
    ensures sequence > Name(archive[|archive| - 1]).1 ==>
      AnswerFor(DirectoryOf(archive), sequence) == Some(Uncommitted(Some(Name(archive[|archive| - 1]).1), None))
  {
    hide ArchiveSound, OnlyForward;
    WindowFacts(settings, archive, 0);
    if sequence < Name(archive[0]).0 {
      ForwardStop(settings, archive, 0, sequence);
    }
    if sequence > Name(archive[|archive| - 1]).1 {
      ForwardStop(settings, archive, |archive|, sequence);
    }
  }

  // ---------------------------------------------------------------- what old ground costs

  /** A seamed market that publishes one tick in windows of one commits exactly that tick, and can be seamed again. */
  lemma OneTickCommitted(settings: Settings, run: AssetRun, tick: Tick) returns (w: ClosedWindow)
    requires RunSound(settings, run) && settings.windowTicks == 1 && Published(tick)
    requires run.publisher.open == [] && run.publisher.nextSequence.None?
    ensures var after := ObserveRun(settings, run, [tick]);
      && RunSound(settings, after) && after.archive == run.archive + [w] && w.ticks == [tick]
      && Name(w) == (tick.sequence, tick.sequence)
    ensures var seamed := SeamRun(settings, ObserveRun(settings, run, [tick]));
      && RunSound(settings, seamed) && seamed.archive == run.archive + [w]
      && seamed.publisher.open == [] && seamed.publisher.nextSequence.None?
  {
    var s := run.publisher;
    AcceptedWhole(s, [tick]);
    TakenWhole(settings, s, [tick]);
    ObservedWhole(settings, s, [tick]);
    ActSound(settings, run, Action.Observe([tick]));
    var taken := PushAll(s, [tick]);
    CloseFullExact(settings, taken);
    CloseFullConserves(settings, taken);
    var after := ObserveRun(settings, run, [tick]);
    var closed := CloseFull(settings, taken).0;
    ConcatUnit([tick]);
    hide CloseFull, Ready, PushAll, RunSound;
    OneWindow(closed, tick);
    w := closed[0];
    SealedNothing(settings, after);
    SeamWaits(settings, after);
    SeamSound(settings, after);
    WindowOfRun(settings, after);
  }

  /** Windows of one tick each that hold one tick between them are one window. */
  lemma OneWindow(closed: seq<ClosedWindow>, tick: Tick)
    requires Joined(closed) == [tick] && forall w :: w in closed ==> |w.ticks| == 1
    ensures closed == [closed[0]] && closed[0].ticks == [tick]
  {
    JoinedLength(closed);
    assert closed[1..] == [];
    ConcatUnit(closed[0].ticks);
  }

  lemma {:induction false} JoinedLength(closed: seq<ClosedWindow>)
    requires forall w :: w in closed ==> |w.ticks| == 1
    ensures |Joined(closed)| == |closed|
    decreases |closed|
  {
    if closed != [] {
      assert closed[0] in closed;
      JoinedLength(closed[1..]);
    }
  }

  lemma SealedNothing(settings: Settings, run: AssetRun)
    requires RunSound(settings, run) && run.publisher.open == []
    ensures SealRun(settings, run).archive == run.archive
  {
  }

  lemma WindowOfRun(settings: Settings, run: AssetRun)
    requires RunSound(settings, run) && run.archive != []
    ensures var w := run.archive[|run.archive| - 1];
      w.ticks != [] && Name(w) == (w.ticks[0].sequence, w.ticks[|w.ticks| - 1].sequence)
  {
    WindowEnds(settings, run.archive[|run.archive| - 1]);
  }

  /** Two ticks published with a seam between them, in windows of one. */
  lemma TwoTicks(settings: Settings, first: Tick, second: Tick) returns (archive: seq<ClosedWindow>)
    requires settings.windowTicks == 1 && IsAssetId(settings.assetId) && Published(first) && Published(second)
    ensures RunSound(settings, BEGIN)
    ensures archive
      == RunAll(settings, BEGIN, [Action.Observe([first]), SeamChain, Action.Observe([second])]).archive
    ensures ArchiveSound(settings, archive) && |archive| == 2
    ensures archive[0].ticks == [first] && Name(archive[0]) == (first.sequence, first.sequence)
    ensures archive[1].ticks == [second] && Name(archive[1]) == (second.sequence, second.sequence)
  {
    BeginSound(settings);
    var v := OneTickCommitted(settings, BEGIN, first);
    var seamed := SeamRun(settings, ObserveRun(settings, BEGIN, [first]));
    var w := OneTickCommitted(settings, seamed, second);
    var final := ObserveRun(settings, seamed, [second]);
    archive := final.archive;
    RunOfThree(settings, BEGIN, Action.Observe([first]), SeamChain, Action.Observe([second]));
    SoundArchive(settings, final);
  }

  lemma SoundArchive(settings: Settings, run: AssetRun)
    requires RunSound(settings, run)
    ensures ArchiveSound(settings, run.archive)
  {
  }

  lemma RunOfThree(settings: Settings, run: AssetRun, a: Action, b: Action, c: Action)
    requires RunSound(settings, run) && Takeable(a) && Takeable(b) && Takeable(c)
    ensures AllTakeable([a, b, c])
    ensures RunSound(settings, Act(settings, run, a)) && RunSound(settings, Act(settings, Act(settings, run, a), b))
    ensures RunAll(settings, run, [a, b, c]) == Act(settings, Act(settings, Act(settings, run, a), b), c)
  {
    hide RunSound, Act, Ready, Takeable;
    StepOf(settings, run, a);
    var one := Act(settings, run, a);
    StepOf(settings, one, b);
    var two := Act(settings, one, b);
    StepOf(settings, two, c);
    var three := Act(settings, two, c);
    assert [a, b, c][1..] == [b, c] && [b, c][1..] == [c] && [c][1..] == [];
    assert RunAll(settings, three, []) == three;
    assert RunAll(settings, two, [c]) == RunAll(settings, three, []);
    assert RunAll(settings, one, [b, c]) == RunAll(settings, two, [c]);
  }

  lemma StepOf(settings: Settings, run: AssetRun, action: Action)
    requires RunSound(settings, run) && Takeable(action)
    ensures Ready(settings, run.publisher) && RunSound(settings, Act(settings, run, action))
  {
    SoundIsReady(settings, run);
    ActSound(settings, run, action);
  }

  /**
  A run of the writer in which a committed tick is called uncommitted: published after a seam, below
  the window before it. Its own journal is on disk, intact, and never read.
  */
  lemma BackwardWindowIsUnreached(settings: Settings, first: Tick, second: Tick) returns (archive: seq<ClosedWindow>)
    requires settings.windowTicks == 1 && IsAssetId(settings.assetId) && Published(first) && Published(second)
    requires 1 <= second.sequence < first.sequence
    ensures RunSound(settings, BEGIN)
    ensures archive
      == RunAll(settings, BEGIN, [Action.Observe([first]), SeamChain, Action.Observe([second])]).archive
    ensures |archive| == 2 && archive[1].ticks == [second] && JournalKept(archive, 1)
    ensures AnswerFor(DirectoryOf(archive), second.sequence) == Some(Uncommitted(None, None))
  {
    archive := TwoTicks(settings, first, second);
    hide ArchiveSound, AnswerFor, FilesOf, DirectoryOf, RunAll, RunSound;
    CommittedIsProvedIff(settings, archive, 1, second.sequence);
    assert Name(archive[0]).0 > second.sequence;
    assert GapBefore(archive, 0) == Uncommitted(None, None);
  }

  /**
  A run of the writer that loses a committed window's proofs: the same sequence published again after
  a seam, at another price, takes the first window's journal.
  */
  lemma ReplacedJournalIsRefused(settings: Settings, first: Tick, second: Tick) returns (archive: seq<ClosedWindow>)
    requires settings.windowTicks == 1 && IsAssetId(settings.assetId) && Published(first) && Published(second)
    requires 1 <= second.sequence == first.sequence && second != first
    ensures RunSound(settings, BEGIN)
    ensures archive
      == RunAll(settings, BEGIN, [Action.Observe([first]), SeamChain, Action.Observe([second])]).archive
    ensures |archive| == 2 && archive[0].ticks == [first] && !JournalKept(archive, 0)
    ensures AnswerFor(DirectoryOf(archive), first.sequence) == None
  {
    archive := TwoTicks(settings, first, second);
    hide ArchiveSound, AnswerFor, FilesOf, DirectoryOf, RunAll, RunSound;
    CommittedIsProvedIff(settings, archive, 0, first.sequence);
    assert LastNamed(archive, 0) == 1;
    assert [first][0] != [second][0];
  }
}
