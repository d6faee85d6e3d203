/**
The writer: one publisher per asset, and what it leaves on disk
(packages/distribution/src/publicationWriter.ts).

The directory is a map from asset to its commitments file, one link per line, and its
journals, one per window, named by the window's first and last sequence.
*/
module PublicationWriter {
  import opened Prelude
  import opened Digests
  import opened Commitments
  import opened Publisher
  import opened PublicationRuns

  /** A journal as written: a header claiming a count, then one row per tick. */
  datatype Journal = Journal(count: int, rows: seq<Tick>)

  datatype AssetFiles = AssetFiles(links: seq<SignedCommitment>, journals: map<(int, int), Journal>)

  const NO_FILES := AssetFiles([], map[])

  /** `#write`: the window's journal, and its link appended to the chain. */
  function WriteWindow(files: AssetFiles, w: ClosedWindow): AssetFiles {
    var link := w.signed.commitment;
    AssetFiles(
      files.links + [w.signed],
      files.journals[(link.fromSequence, link.toSequence) := Journal(|w.ticks|, w.ticks)])
  }

  /** What writing these windows in order leaves on disk. */
  function FilesOf(archive: seq<ClosedWindow>): (files: AssetFiles)
    ensures |files.links| == |archive|
    ensures forall i :: 0 <= i < |archive| ==> files.links[i] == archive[i].signed
    decreases |archive|
  {
    if archive == [] then NO_FILES
    else WriteWindow(FilesOf(archive[..|archive| - 1]), archive[|archive| - 1])
  }

  lemma FilesAppend(archive: seq<ClosedWindow>, w: ClosedWindow)
    ensures FilesOf(archive + [w]) == WriteWindow(FilesOf(archive), w)
  {
    assert (archive + [w])[..|archive|] == archive;
  }

  datatype Resumption =
    | FreshChain
    | Continued(tipRoot: Hex, nextSequence: int)
    | Resuming(tipRoot: Hex, resumesAfter: int)

  /** The tip the file ends in, and the options a publisher takes it over with. */
  function TakeOverFile(files: AssetFiles): Options {
    if files.links == [] then FRESH
    else
      var tip := files.links[|files.links| - 1].commitment;
      Continue(tip.root, tip.toSequence + 1)
  }

  function ResumptionOf(options: Options): Resumption {
    if options.previousRoot.None? then FreshChain
    else if options.nextSequence.Some? then Continued(options.previousRoot.value, options.nextSequence.value)
    else if options.resumesAfter.Some? then Resuming(options.previousRoot.value, options.resumesAfter.value)
    else FreshChain
  }

  /**
  The writer's state for one asset. The source keeps these fields in three maps by asset id
  and nothing in one entry ever reads another.
  */
  class AssetWriter {
    const settings: Settings
    var publisher: CommitmentPublisher
    var resumption: Resumption
    /** The asset's files on disk. */
    var files: AssetFiles
    /** Every window ever written for the asset, by this process or an earlier one. */
    ghost var archive: seq<ClosedWindow>

    /** The publisher and the file, as the state machine of PublicationRuns sees them. */
    ghost function Run(): AssetRun
      reads this, publisher
    {
      AssetRun(publisher.Now(), archive)
    }

    ghost predicate Valid()
      reads this, publisher
    {
      && publisher.settings == settings
      && files == FilesOf(archive)
      && RunSound(settings, Run())
    }

    /**
    `register`: take an asset over from the tip of its file. A file already there is
    continued, never restarted; the source refuses a bad id.
    */
    constructor (settings: Settings, files: AssetFiles, ghost archive: seq<ClosedWindow>)
      requires settings.windowTicks >= 1 && IsAssetId(settings.assetId)
      requires files == FilesOf(archive) && ArchiveSound(settings, archive)
      ensures Valid() && fresh(publisher) && this.settings == settings && this.files == files
      ensures Run() == AssetRun(Initial(TakeOver(archive)), archive)
      ensures resumption == ResumptionOf(TakeOver(archive))
    {
      var options := TakeOverFile(files);
      assert options == TakeOver(archive);
      TakeOverSound(settings, archive);
      var taken := new CommitmentPublisher(settings, options);
      this.settings := settings;
      this.publisher := taken;
      this.resumption := ResumptionOf(options);
      this.files := files;
      this.archive := archive;
    }

    /** `observe`: one step of the publisher, its windows written in order. */
    method Observe(ticks: seq<Tick>) returns (error: Option<PublisherError>)
      requires Valid() && AllPublished(ticks)
      modifies this`files, this`archive, publisher
      ensures Valid()
      ensures Run() == ObserveRun(settings, old(Run()), ticks)
      ensures error.Some? <==> AcceptedCount(old(Run()).publisher, ticks) < |ticks|
    {
      hide RunSound, Ready, CloseFull, Observed, Sealed;
      SoundIsReady(settings, Run());
      ObservedRefusal(settings, publisher.Now(), ticks);
      ActSound(settings, Run(), PublicationRuns.Observe(ticks));
      if |ticks| == 0 {
        return None;
      }
      ConcatUnit(archive);
      var closed;
      closed, error := publisher.Observe(ticks);
      if error.None? {
        WriteAll(closed);
      }
    }

    /** Close and write the open window, however short; None when nothing is open. */
    method SealChain() returns (sealed: Option<ClosedWindow>)
      requires Valid()
      modifies this`files, this`archive, publisher
      ensures Valid()
      ensures Run() == SealRun(settings, old(Run()))
      ensures sealed == Sealed(settings, old(Run()).publisher).0
    {
      hide RunSound, Ready, Sealed;
      SoundIsReady(settings, Run());
      SealSound(settings, Run());
      sealed := publisher.SealChain();
      if sealed.Some? {
        WriteAll([sealed.value]);
      }
    }

    /** `seamChain`: write what is open, then hand over to a publisher that waits behind the head. */
    method SeamChain()
      requires Valid()
      modifies this, publisher
      ensures Valid() && fresh(publisher)
      ensures Run() == SeamRun(settings, old(Run()))
      ensures resumption == ResumptionOf(SeamOptions(SealRun(settings, old(Run())).publisher))
    {
      hide RunSound, Ready, Sealed;
      SoundIsReady(settings, Run());
      SeamSound(settings, Run());
      SealSound(settings, Run());
      var _ := SealChain();
      SeamOptionsSound(settings, Run());
      var options := if publisher.previousRoot.Blank? || publisher.tipSequence.None? then FRESH
                     else ResumeAfter(publisher.previousRoot, publisher.tipSequence.value);
      assert options == SeamOptions(publisher.Now());
      publisher := new CommitmentPublisher(settings, options);
      resumption := ResumptionOf(options);
    }

    /** Write windows to disk in order. */
    method WriteAll(closed: seq<ClosedWindow>)
      requires files == FilesOf(archive)
      modifies this`files, this`archive
      ensures archive == old(archive) + closed
      ensures files == FilesOf(archive)
    {
      hide FilesOf, WriteWindow;
      var i := 0;
      ConcatUnit(archive);
      while i < |closed|
        invariant 0 <= i <= |closed|
        invariant archive == old(archive) + closed[..i]
        invariant files == FilesOf(archive)
      {
        FilesAppend(archive, closed[i]);
        CutAfter(closed, i);
        ConcatAssociates(old(archive), closed[..i], [closed[i]]);
        files := WriteWindow(files, closed[i]);
        archive := archive + [closed[i]];
        i := i + 1;
      }
      assert closed[..i] == closed;
    }
  }

  lemma TakeOverSound(settings: Settings, archive: seq<ClosedWindow>)
    requires settings.windowTicks >= 1 && IsAssetId(settings.assetId) && ArchiveSound(settings, archive)
    ensures OptionsFault(settings, TakeOver(archive)).None?
    ensures TakeOver(archive).resumesAfter.None?
    ensures RunSound(settings, AssetRun(Initial(TakeOver(archive)), archive))
  {
    if archive != [] {
      WindowEnds(settings, archive[|archive| - 1]);
    }
  }

  lemma SeamOptionsSound(settings: Settings, sealed: AssetRun)
    requires RunSound(settings, sealed) && sealed.publisher.open == []
    ensures var options := SeamOptions(sealed.publisher);
      && OptionsFault(settings, options).None?
      && (options.resumesAfter.Some? ==>
        IsSafeInteger(options.resumesAfter.value) && options.resumesAfter.value >= 0)
  {
    if sealed.archive != [] {
      WindowEnds(settings, sealed.archive[|sealed.archive| - 1]);
    }
  }
}
