/**
A file written under a succession of keys: one writer after another, each restarting from the file's
tip under the key the last rotation names (packages/distribution/src/publicationWriter.ts and
rotation.ts), and exactly when the two verifiers accept what they leave.
*/
module RotatedRuns {
  import opened Prelude
  import opened Digests
  import opened Commitments
  import opened Chains
  import opened Publisher
  import opened PublicationRuns
  import opened Rotations
  import opened SignedChains
  import opened CommitmentsFile
  import VerifierAgreement
  import JournalFiles

  /** One writer's time: its window size, its key, and what it was told to do. */
  datatype Phase = Phase(windowTicks: nat, key: Key, actions: seq<Action>)

  function SettingsOf(assetId: string, phase: Phase): Settings {
    Settings(assetId, phase.windowTicks, phase.key)
  }

  ghost predicate Usable(assetId: string, phases: seq<Phase>) {
    IsAssetId(assetId) && forall k :: 0 <= k < |phases| ==> phases[k].windowTicks >= 1 && AllTakeable(phases[k].actions)
  }

  /** Nothing about a file says which key or window size comes next. */
  lemma SoundAcross(s: Settings, t: Settings, run: AssetRun)
    requires RunSound(s, run) && t.assetId == s.assetId && t.windowTicks >= 1
    ensures RunSound(t, run)
  {
    forall i | 0 <= i < |run.archive|
      ensures WindowSound(t, run.archive[i])
    {
      assert WindowSound(s, run.archive[i]);
    }
    hide WindowSound, PublicationRuns.Follows;
  }

  /** Any settings of the asset will do to say that a run of it is sound. */
  function AnySettings(assetId: string): Settings {
    Settings(assetId, 1, Key("", _ => ""))
  }

  /** What the first n phases leave, each taking over from the file's tip. */
  ghost function RunPhases(assetId: string, phases: seq<Phase>, n: nat): (run: AssetRun)
    requires Usable(assetId, phases) && n <= |phases|
    ensures RunSound(AnySettings(assetId), run)
    decreases n
  {
    if n == 0 then
      BeginSound(AnySettings(assetId));
      BEGIN
    else
      var before := RunPhases(assetId, phases, n - 1);
      var settings := SettingsOf(assetId, phases[n - 1]);
      TakenOver(assetId, before, settings);
      PhaseSound(assetId, RestartRun(before), settings, phases[n - 1].actions);
      RunAll(settings, RestartRun(before), phases[n - 1].actions)
  }

  lemma TakenOver(assetId: string, before: AssetRun, settings: Settings)
    requires RunSound(AnySettings(assetId), before) && settings.assetId == assetId && settings.windowTicks >= 1
    ensures RunSound(settings, RestartRun(before))
  {
    SoundAcross(AnySettings(assetId), settings, before);
    RestartSound(settings, before);
  }

  lemma PhaseSound(assetId: string, run: AssetRun, settings: Settings, actions: seq<Action>)
    requires RunSound(settings, run) && settings.assetId == assetId && AllTakeable(actions)
    ensures RunSound(AnySettings(assetId), RunAll(settings, run, actions))
  {
    EveryRunIsSound(settings, run, actions);
    SoundAcross(settings, AnySettings(assetId), RunAll(settings, run, actions));
  }

  /** How many windows are in the file when phase k takes over. */
  ghost function Place(assetId: string, phases: seq<Phase>, k: nat): nat
    requires Usable(assetId, phases) && k <= |phases|
  {
    |RunPhases(assetId, phases, k).archive|
  }

  // ---------------------------------------------------------------- which key signed what

  lemma {:induction false} PhaseExtends(assetId: string, phases: seq<Phase>, k: nat)
    requires Usable(assetId, phases) && k < |phases|
    ensures Extends(SettingsOf(assetId, phases[k]), RunPhases(assetId, phases, k).archive,
                    RunPhases(assetId, phases, k + 1).archive)
  {
    var before := RunPhases(assetId, phases, k);
    var settings := SettingsOf(assetId, phases[k]);
    TakenOver(assetId, before, settings);
    hide RunSound, Act, Extends, RestartRun;
    KeepsFile(before);
    EveryRunIsSound(settings, RestartRun(before), phases[k].actions);
  }

  lemma KeepsFile(run: AssetRun)
    ensures RestartRun(run).archive == run.archive
  {
  }

  lemma PrefixTransits<T>(a: seq<T>, b: seq<T>, c: seq<T>)
    requires a <= b && b <= c
    ensures a <= c && |a| <= |c|
  {
  }

  lemma {:induction false} PlacesGrow(assetId: string, phases: seq<Phase>, j: nat, k: nat)
    requires Usable(assetId, phases) && j <= k <= |phases|
    ensures RunPhases(assetId, phases, j).archive <= RunPhases(assetId, phases, k).archive
    ensures Place(assetId, phases, j) <= Place(assetId, phases, k)
    decreases k
  {
    hide *;
    PlaceIs(assetId, phases, j);
    PlaceIs(assetId, phases, k);
    if j < k {
      PlacesGrow(assetId, phases, j, k - 1);
      PhaseAdds(assetId, phases, k - 1);
      PrefixTransits(RunPhases(assetId, phases, j).archive, RunPhases(assetId, phases, k - 1).archive,
                     RunPhases(assetId, phases, k).archive);
    }
  }

  lemma PlaceIs(assetId: string, phases: seq<Phase>, k: nat)
    requires Usable(assetId, phases) && k <= |phases|
    ensures Place(assetId, phases, k) == |RunPhases(assetId, phases, k).archive|
  {
  }

  lemma PhaseAdds(assetId: string, phases: seq<Phase>, k: nat)
    requires Usable(assetId, phases) && k < |phases|
    ensures RunPhases(assetId, phases, k).archive <= RunPhases(assetId, phases, k + 1).archive
    ensures Place(assetId, phases, k) <= Place(assetId, phases, k + 1)
  {
    hide RunPhases, RunSound;
    PhaseExtends(assetId, phases, k);
    hide SignedFrom;
  }

  /** The phase a window was written in. */
  lemma {:induction false} PhaseOf(assetId: string, phases: seq<Phase>, n: nat, i: nat) returns (k: nat)
    requires Usable(assetId, phases) && n <= |phases| && i < Place(assetId, phases, n)
    ensures k < n && Place(assetId, phases, k) <= i < Place(assetId, phases, k + 1)
    decreases n
  {
    hide *;
    NoneBefore(assetId, phases);
    k := n - 1;
    if i < Place(assetId, phases, n - 1) {
      k := PhaseOf(assetId, phases, n - 1, i);
    }
  }

  lemma NoneBefore(assetId: string, phases: seq<Phase>)
    requires Usable(assetId, phases)
    ensures Place(assetId, phases, 0) == 0
  {
  }

  /** A window is signed with the key of the phase it was written in. */
  lemma SignedInPhase(assetId: string, phases: seq<Phase>, k: nat, i: nat)
    requires Usable(assetId, phases) && k < |phases|
    requires Place(assetId, phases, k) <= i < Place(assetId, phases, k + 1)
    ensures i < |RunPhases(assetId, phases, |phases|).archive|
    ensures RunPhases(assetId, phases, |phases|).archive[i].signed.publicKey == phases[k].key.publicKey
  {
    hide RunPhases, RunSound;
    PhaseExtends(assetId, phases, k);
    PlacesGrow(assetId, phases, k + 1, |phases|);
    var early, final := RunPhases(assetId, phases, k + 1).archive, RunPhases(assetId, phases, |phases|).archive;
    assert early[i] == final[i];
  }

  // ---------------------------------------------------------------- the rotation log

  /** The committed head when phase k takes over, if anything is committed. */
  ghost function HeadAt(assetId: string, phases: seq<Phase>, k: nat): Option<Hex>
    requires Usable(assetId, phases) && k <= |phases|
  {
    var archive := RunPhases(assetId, phases, k).archive;
    if archive == [] then None else Some(archive[|archive| - 1].signed.commitment.root)
  }

  /** One rotation between two phases: to the next phase's key, at the head committed by then. */
  ghost predicate LogNames(assetId: string, phases: seq<Phase>, rotations: seq<SignedRotation>) {
    && Usable(assetId, phases) && |phases| == |rotations| + 1
    && forall r :: 0 <= r < |rotations| ==> NamesPhase(assetId, phases, rotations, r)
  }

  ghost predicate NamesPhase(assetId: string, phases: seq<Phase>, rotations: seq<SignedRotation>, r: nat)
    requires Usable(assetId, phases) && |phases| == |rotations| + 1 && r < |rotations|
  {
    && rotations[r].rotation.toPublicKey == phases[r + 1].key.publicKey
    && HeadOf(rotations, r, assetId) == HeadAt(assetId, phases, r + 1)
  }

  ghost function File(assetId: string, phases: seq<Phase>): (chain: seq<SignedCommitment>)
    requires Usable(assetId, phases)
  {
    VerifierAgreement.SignedOf(RunPhases(assetId, phases, |phases|).archive)
  }

  /** Keys in force, and where each came into force: a link is signed at an epoch exactly from its place on. */
  ghost predicate EpochsByPlace(keys: seq<string>, chain: seq<SignedCommitment>, places: seq<nat>) {
    forall i :: 0 <= i < |chain| ==> EpochByPlace(keys, chain, places, i)
  }

  ghost predicate EpochByPlace(keys: seq<string>, chain: seq<SignedCommitment>, places: seq<nat>, i: nat)
    requires i < |chain|
  {
    var epoch := EpochOf(keys, chain[i].publicKey);
    epoch.Some? && forall r :: 0 <= r < |places| ==> (epoch.value >= r + 1 <==> i >= places[r])
  }

  ghost function Places(assetId: string, phases: seq<Phase>): (places: seq<nat>)
    requires Usable(assetId, phases) && phases != []
    ensures |places| == |phases| - 1
  {
    seq(|phases| - 1, r requires 0 <= r < |phases| - 1 => Place(assetId, phases, r + 1))
  }

  lemma KeyOfPhase(assetId: string, phases: seq<Phase>, rotations: seq<SignedRotation>, k: nat)
    requires LogNames(assetId, phases, rotations) && k < |phases|
    ensures Keys(phases[0].key.publicKey, rotations)[k] == phases[k].key.publicKey
  {
    if k > 0 {
      assert NamesPhase(assetId, phases, rotations, k - 1);
    }
  }

  lemma EpochOfKey(crypto: Crypto, genesis: string, rotations: seq<SignedRotation>, k: nat)
    requires Succession(crypto, genesis, rotations) && k <= |rotations|
    ensures EpochOf(Keys(genesis, rotations), Keys(genesis, rotations)[k]) == Some(k)
  {
    var keys := Keys(genesis, rotations);
    hide Succession, Keys;
    var e := EpochOf(keys, keys[k]).value;
    if e < k {
      KeysDistinct(crypto, genesis, rotations, e, k);
    } else if k < e {
      KeysDistinct(crypto, genesis, rotations, k, e);
    }
  }

  lemma EpochsFollowPhases(crypto: Crypto, assetId: string, phases: seq<Phase>, rotations: seq<SignedRotation>, i: nat)
    requires LogNames(assetId, phases, rotations) && Succession(crypto, phases[0].key.publicKey, rotations)
    requires i < |File(assetId, phases)|
    ensures EpochByPlace(Keys(phases[0].key.publicKey, rotations), File(assetId, phases), Places(assetId, phases), i)
  {
    hide RunPhases, RunSound, Place, Usable, Succession, Keys, EpochOf, NamesPhase;
    PlaceIs(assetId, phases, |phases|);
    var k := PhaseOf(assetId, phases, |phases|, i);
    SignedInPhase(assetId, phases, k, i);
    KeyOfPhase(assetId, phases, rotations, k);
    EpochOfKey(crypto, phases[0].key.publicKey, rotations, k);
    forall r | 0 <= r < |rotations|
      ensures k >= r + 1 <==> i >= Places(assetId, phases)[r]
    {
      if k >= r + 1 {
        PlacesGrow(assetId, phases, r + 1, k);
      } else {
        PlacesGrow(assetId, phases, k + 1, r + 1);
      }
    }
  }

  // ---------------------------------------------------------------- what each rotation asks

  /** Rotation r's head is named where it stands: the last link before its place, or none before any. */
  ghost predicate NamedAtPlace(
    assetId: string, chain: seq<SignedCommitment>, rotations: seq<SignedRotation>, r: nat, place: nat)
    requires r < |rotations| && place <= |chain|
  {
    HeadOf(rotations, r, assetId) == if place == 0 then None else Some(chain[place - 1].commitment.root)
  }

  /** The root a rotation names stands nowhere before the place it is named at. */
  ghost predicate FirstThere(chain: seq<SignedCommitment>, place: nat)
    requires place <= |chain|
  {
    place > 0 ==> !Holds(chain, 0, place - 1, chain[place - 1].commitment.root)
  }

  lemma HeadNamed(assetId: string, phases: seq<Phase>, rotations: seq<SignedRotation>, r: nat)
    requires LogNames(assetId, phases, rotations) && r < |rotations|
    ensures Places(assetId, phases)[r] <= |File(assetId, phases)|
    ensures NamedAtPlace(assetId, File(assetId, phases), rotations, r, Places(assetId, phases)[r])
  {
    hide RunPhases, RunSound, HeadOf;
    assert NamesPhase(assetId, phases, rotations, r);
    PlacesGrow(assetId, phases, r + 1, |phases|);
    var before, final := RunPhases(assetId, phases, r + 1).archive, RunPhases(assetId, phases, |phases|).archive;
    if before != [] {
      assert before[|before| - 1] == final[|before| - 1];
    }
  }

  /** Nothing after the head of rotation r, counting from its first place, is signed below it. */
  ghost predicate Respects(keys: seq<string>, chain: seq<SignedCommitment>, rotations: seq<SignedRotation>, r: nat)
    requires r < |rotations|
  {
    forall i :: 0 <= i < |chain| && AfterFirst(chain, rotations, i, r) ==> AtLeast(keys, chain, i, r)
  }

  /** The same, counting from its last. */
  ghost predicate RespectsLast(keys: seq<string>, chain: seq<SignedCommitment>, rotations: seq<SignedRotation>, r: nat)
    requires r < |rotations|
  {
    forall i :: 0 <= i < |chain| && AfterLast(chain, rotations, i, r) ==> AtLeast(keys, chain, i, r)
  }

  lemma AllRespect(keys: seq<string>, chain: seq<SignedCommitment>, rotations: seq<SignedRotation>)
    ensures (forall i, r :: 0 <= i < |chain| && 0 <= r < |rotations| && AfterFirst(chain, rotations, i, r) ==>
        AtLeast(keys, chain, i, r))
      <==> forall r :: 0 <= r < |rotations| ==> Respects(keys, chain, rotations, r)
    ensures NoneRetired(keys, chain, rotations, |chain|)
      <==> forall r :: 0 <= r < |rotations| ==> RespectsLast(keys, chain, rotations, r)
  {
    hide AfterFirst, AfterLast, AtLeast;
    if forall r :: 0 <= r < |rotations| ==> Respects(keys, chain, rotations, r) {
      forall i, r | 0 <= i < |chain| && 0 <= r < |rotations| && AfterFirst(chain, rotations, i, r)
        ensures AtLeast(keys, chain, i, r)
      {
        assert Respects(keys, chain, rotations, r);
      }
    }
    if forall r :: 0 <= r < |rotations| ==> RespectsLast(keys, chain, rotations, r) {
      forall i, r | 0 <= i < |chain| && 0 <= r < |rotations| && AfterLast(chain, rotations, i, r)
        ensures AtLeast(keys, chain, i, r)
      {
        assert RespectsLast(keys, chain, rotations, r);
      }
    }
  }

  /**
  To the verifier that counts from a head's first place, rotation r is respected exactly when its
  head stands nowhere before; to the one that counts from its last, always.
  */
  lemma RotationRespectedIff(keys: seq<string>, chain: seq<SignedCommitment>, rotations: seq<SignedRotation>,
                             places: seq<nat>, r: nat)
    requires chain != [] && |places| == |rotations| && r < |rotations| && places[r] <= |chain|
    requires EpochsByPlace(keys, chain, places)
    requires NamedAtPlace(chain[0].commitment.assetId, chain, rotations, r, places[r])
    ensures Respects(keys, chain, rotations, r) <==> FirstThere(chain, places[r])
    ensures RespectsLast(keys, chain, rotations, r)
    ensures var head := HeadOf(rotations, r, chain[0].commitment.assetId);
      head.Some? ==> Holds(chain, 0, |chain|, head.value)
  {
    hide HeadOf, EpochOf;
    var place := places[r];
    forall i | 0 <= i < |chain|
      ensures AtLeast(keys, chain, i, r) <==> i >= place
    {
      assert EpochByPlace(keys, chain, places, i);
    }
    if place > 0 {
      var head := chain[place - 1].commitment.root;
      hide AtLeast;
      if !FirstThere(chain, place) {
        assert AfterFirst(chain, rotations, place - 1, r);
      }
      forall i | 0 <= i < place && AfterFirst(chain, rotations, i, r)
        ensures !FirstThere(chain, place)
      {
        var k :| 0 <= k < i && chain[k].commitment.root == head;
        assert Holds(chain, 0, place - 1, head);
      }
      forall i | 0 <= i < place
        ensures !AfterLast(chain, rotations, i, r)
      {
        assert Holds(chain, i, |chain|, head);
      }
    }
  }

  // ---------------------------------------------------------------- the two verdicts

  lemma FileFollows(assetId: string, phases: seq<Phase>, i: nat)
    requires Usable(assetId, phases) && i < |File(assetId, phases)|
    ensures CommitmentsFile.Follows(File(assetId, phases), i, assetId)
    ensures File(assetId, phases)[0].commitment.assetId == assetId
  {
    var run := RunPhases(assetId, phases, |phases|);
    var settings := AnySettings(assetId);
    hide RunPhases;
    VerifierAgreement.WindowFollows(settings, run.archive, i);
    assert WindowSound(settings, run.archive[0]);
    hide ArchiveSound, WindowSound, CommitmentsFile.Follows;
  }

  lemma FileAttributed(crypto: Crypto, keys: seq<string>, chain: seq<SignedCommitment>, places: seq<nat>, i: nat)
    requires EpochsByPlace(keys, chain, places) && |places| + 1 == |keys| && i < |chain|
    requires crypto.verifiesCommitment(chain[i])
    ensures Attributed(crypto, keys, chain, i)
  {
    hide EpochOf;
    assert EpochByPlace(keys, chain, places, i);
    if i > 0 {
      assert EpochByPlace(keys, chain, places, i - 1);
      var e := EpochOf(keys, chain[i - 1].publicKey).value;
      if e > 0 {
        assert i - 1 >= places[e - 1];
      }
    }
  }

  /** Every rotation's head stands nowhere before the place it is named at. */
  ghost predicate HeadsFirst(assetId: string, phases: seq<Phase>)
    requires Usable(assetId, phases) && phases != []
  {
    forall r :: 0 <= r < |phases| - 1 ==> HeadFirst(assetId, phases, r)
  }

  ghost predicate HeadFirst(assetId: string, phases: seq<Phase>, r: nat)
    requires Usable(assetId, phases) && r + 1 < |phases|
  {
    Places(assetId, phases)[r] <= |File(assetId, phases)| && FirstThere(File(assetId, phases), Places(assetId, phases)[r])
  }

  /** What the phases and the log make of the file: who signed what, and what each rotation asks. */
  lemma FileFacts(crypto: Crypto, assetId: string, phases: seq<Phase>, rotations: seq<SignedRotation>)
    requires LogNames(assetId, phases, rotations) && Succession(crypto, phases[0].key.publicKey, rotations)
    requires File(assetId, phases) != []
    requires forall i :: 0 <= i < |File(assetId, phases)| ==> crypto.verifiesCommitment(File(assetId, phases)[i])
    ensures var keys, chain := Keys(phases[0].key.publicKey, rotations), File(assetId, phases);
      && AllAttributed(crypto, keys, chain, |chain|) && HeadsPresent(chain, rotations)
      && NoneRetired(keys, chain, rotations, |chain|)
    ensures forall i :: 0 <= i < |File(assetId, phases)| ==>
      CommitmentsFile.Follows(File(assetId, phases), i, File(assetId, phases)[0].commitment.assetId)
    ensures HeadsFirst(assetId, phases) <==>
      forall r :: 0 <= r < |rotations| ==>
        Respects(Keys(phases[0].key.publicKey, rotations), File(assetId, phases), rotations, r)
  {
    hide Succession, Keys, HeadOf, EpochOf, NamesPhase, File, Attributed, AtLeast, AfterFirst, AfterLast;
    hide CommitmentsFile.Follows, NamedAtPlace, EpochByPlace, FirstThere, Respects, RespectsLast;
    var keys, chain, places := Keys(phases[0].key.publicKey, rotations), File(assetId, phases), Places(assetId, phases);
    FileFollows(assetId, phases, 0);
    forall i | 0 <= i < |chain|
      ensures CommitmentsFile.Follows(chain, i, assetId) && EpochByPlace(keys, chain, places, i)
    {
      FileFollows(assetId, phases, i);
      EpochsFollowPhases(crypto, assetId, phases, rotations, i);
    }
    hide LogNames, Places;
    forall i | 0 <= i < |chain|
      ensures Attributed(crypto, keys, chain, i)
    {
      FileAttributed(crypto, keys, chain, places, i);
    }
    forall r | 0 <= r < |rotations|
      ensures HeadFirst(assetId, phases, r) <==> Respects(keys, chain, rotations, r)
      ensures RespectsLast(keys, chain, rotations, r)
      ensures HeadOf(rotations, r, assetId).Some? ==> Holds(chain, 0, |chain|, HeadOf(rotations, r, assetId).value)
    {
      HeadNamed(assetId, phases, rotations, r);
      RotationRespectedIff(keys, chain, rotations, places, r);
    }
    AllRespect(keys, chain, rotations);
  }

  /**
  Any succession of writers, each restarting from the file's tip under the key the last rotation
  names, whatever they were told to do: the incremental verifier accepts the file they leave under
  that log exactly when no rotation names a root that stands in the file already before the head it
  is named for; the batch verifier accepts it exactly when no window goes back.
  */
  lemma RotatedFileVerifiesIff(crypto: Crypto, assetId: string, phases: seq<Phase>, rotations: seq<SignedRotation>)
    requires LogNames(assetId, phases, rotations) && Succession(crypto, phases[0].key.publicKey, rotations)
    requires File(assetId, phases) != []
    requires forall i :: 0 <= i < |File(assetId, phases)| ==> crypto.verifiesCommitment(File(assetId, phases)[i])
    ensures FileOk(crypto, File(assetId, phases), phases[0].key.publicKey, rotations) <==> HeadsFirst(assetId, phases)
    ensures SignedChainOk(crypto, File(assetId, phases), phases[0].key.publicKey, rotations)
      <==> OnlyForward(RunPhases(assetId, phases, |phases|).archive)
  {
    FileFacts(crypto, assetId, phases, rotations);
    StructureOfFile(assetId, phases);
    AllRespect(Keys(phases[0].key.publicKey, rotations), File(assetId, phases), rotations);
    hide Respects, RespectsLast, HeadsFirst, File, RunPhases;
    hide Succession, Keys, HeadsPresent, AllAttributed, NoneRetired, AfterFirst, AtLeast, Attributed, Verifies;
    assert AllAttributed(crypto, Keys(phases[0].key.publicKey, rotations), File(assetId, phases), |File(assetId, phases)|);
  }

  lemma StructureOfFile(assetId: string, phases: seq<Phase>)
    requires Usable(assetId, phases) && File(assetId, phases) != []
    ensures Verifies(LinksOf(File(assetId, phases))) <==> OnlyForward(RunPhases(assetId, phases, |phases|).archive)
    ensures Committed(LinksOf(File(assetId, phases)), Windows(RunPhases(assetId, phases, |phases|).archive))
  {
    var run := RunPhases(assetId, phases, |phases|);
    var settings := AnySettings(assetId);
    hide RunPhases;
    FileVerifiesIff(settings, run.archive);
    assert LinksOf(File(assetId, phases)) == Links(run.archive);
    hide ArchiveSound, Verifies, Committed;
  }

  /** So when no window goes back both verifiers accept it, rotations and all. */
  lemma ForwardRotatedFileVerifies(crypto: Crypto, assetId: string, phases: seq<Phase>, rotations: seq<SignedRotation>)
    requires LogNames(assetId, phases, rotations) && Succession(crypto, phases[0].key.publicKey, rotations)
    requires File(assetId, phases) != []
    requires forall i :: 0 <= i < |File(assetId, phases)| ==> crypto.verifiesCommitment(File(assetId, phases)[i])
    requires OnlyForward(RunPhases(assetId, phases, |phases|).archive)
    ensures SignedChainOk(crypto, File(assetId, phases), phases[0].key.publicKey, rotations)
    ensures FileOk(crypto, File(assetId, phases), phases[0].key.publicKey, rotations)
  {
    RotatedFileVerifiesIff(crypto, assetId, phases, rotations);
    StructureOfFile(assetId, phases);
    hide *;
    VerifierAgreement.VerdictsAgreeOnGenuine(
      crypto, File(assetId, phases), Windows(RunPhases(assetId, phases, |phases|).archive), phases[0].key.publicKey, rotations);
  }

  // ---------------------------------------------------------------- a file that is refused

  /** A market that publishes one tick twice, with a seam between, in windows of one. */
  function Replaying(key: Key, tick: Tick): Phase {
    Phase(1, key, [Action.Observe([tick]), SeamChain, Action.Observe([tick])])
  }

  /** A writer that has not closed a window yet. */
  function Silent(key: Key): Phase {
    Phase(1, key, [])
  }

  lemma ReplayedWindows(assetId: string, former: Key, next: Key, tick: Tick) returns (archive: seq<ClosedWindow>)
    requires IsAssetId(assetId) && Published(tick)
    ensures Usable(assetId, [Replaying(former, tick), Silent(next)])
    ensures archive == RunPhases(assetId, [Replaying(former, tick), Silent(next)], 1).archive
    ensures archive == RunPhases(assetId, [Replaying(former, tick), Silent(next)], 2).archive
    ensures |archive| == 2 && archive[0].signed.commitment == archive[1].signed.commitment
  {
    var first, phases := Replaying(former, tick), [Replaying(former, tick), Silent(next)];
    var settings := SettingsOf(assetId, first);
    TakeableTicks(tick);
    assert Usable(assetId, phases);
    hide RunSound, ArchiveSound, RunAll;
    archive := JournalFiles.TwoTicks(settings, tick, tick);
    SameWindowTwice(settings, archive, tick);
    assert RestartRun(BEGIN) == BEGIN;
    assert RunPhases(assetId, phases, 0) == BEGIN;
    assert RunPhases(assetId, phases, 1) == RunAll(settings, BEGIN, first.actions);
    NothingDone(assetId, phases);
  }

  lemma TakeableTicks(tick: Tick)
    requires Published(tick)
    ensures AllTakeable([Action.Observe([tick]), SeamChain, Action.Observe([tick])])
  {
  }

  lemma NothingDone(assetId: string, phases: seq<Phase>)
    requires Usable(assetId, phases) && |phases| == 2 && phases[1].actions == []
    ensures RunPhases(assetId, phases, |phases|).archive == RunPhases(assetId, phases, 1).archive
  {
    var before := RunPhases(assetId, phases, 1);
    var settings := SettingsOf(assetId, phases[1]);
    TakenOver(assetId, before, settings);
    hide RunSound;
    assert RunAll(settings, RestartRun(before), []) == RestartRun(before);
  }

  lemma SameWindowTwice(settings: Settings, archive: seq<ClosedWindow>, tick: Tick)
    requires ArchiveSound(settings, archive) && |archive| == 2
    requires archive[0].ticks == [tick] && archive[1].ticks == [tick]
    ensures archive[0].signed.commitment == archive[1].signed.commitment
  {
    WindowEnds(settings, archive[0]);
    WindowEnds(settings, archive[1]);
    LinkShapes(settings, archive, 0);
    assert WindowSound(settings, archive[0]) && WindowSound(settings, archive[1]);
    hide Commit;
  }

  /** Anything verifies. */
  function Trusting(): Crypto {
    Crypto(_ => true, _ => true, _ => true)
  }

  /** One rotation, naming this head. */
  function RotatedAt(assetId: string, former: Key, next: Key, head: Hex): (rotations: seq<SignedRotation>)
    ensures |rotations| == 1
  {
    [SignedRotation(KeyRotation(1, former.publicKey, next.publicKey, [RotationHead(assetId, head)], ""), "")]
  }

  lemma RotatedAtNames(assetId: string, former: Key, next: Key, tick: Tick, head: Hex)
    requires Usable(assetId, [Replaying(former, tick), Silent(next)])
    requires HeadAt(assetId, [Replaying(former, tick), Silent(next)], 1) == Some(head)
    ensures LogNames(assetId, [Replaying(former, tick), Silent(next)], RotatedAt(assetId, former, next, head))
  {
    hide RunPhases, HeadAt, Usable;
    var rotations := RotatedAt(assetId, former, next, head);
    assert HeadOf(rotations, 0, assetId) == Some(head);
  }

  /** Two windows of one root, the rotation at the second. */
  lemma SecondIsNotFirst(assetId: string, phases: seq<Phase>)
    requires Usable(assetId, phases) && |phases| == 2
    requires var archive := RunPhases(assetId, phases, |phases|).archive;
      && |archive| == 2 && archive == RunPhases(assetId, phases, 1).archive
      && archive[0].signed.commitment == archive[1].signed.commitment
    ensures !HeadsFirst(assetId, phases) && |File(assetId, phases)| == 2
    ensures HeadAt(assetId, phases, 1) == Some(File(assetId, phases)[1].commitment.root)
  {
    hide RunPhases, Usable;
    var chain := File(assetId, phases);
    assert Holds(chain, 0, 1, chain[1].commitment.root) by {
      assert chain[0].commitment.root == chain[1].commitment.root;
    }
    assert !HeadFirst(assetId, phases, 0);
  }

  /**
  The input: a window written, and after a seam written again, is one root twice in the file. Once
  the key rotates at that head the incremental verifier refuses the file for the second of them,
  though every signature holds and every window was signed by the key in force.
  */
  lemma ReplayedHeadIsRefused(assetId: string, former: Key, next: Key, tick: Tick) returns (head: Hex)
    requires IsAssetId(assetId) && Published(tick) && former.publicKey != next.publicKey
    ensures Usable(assetId, [Replaying(former, tick), Silent(next)])
    ensures var phases, rotations := [Replaying(former, tick), Silent(next)], RotatedAt(assetId, former, next, head);
      && |File(assetId, phases)| == 2
      && LogNames(assetId, phases, rotations) && Succession(Trusting(), former.publicKey, rotations)
      && !FileOk(Trusting(), File(assetId, phases), former.publicKey, rotations)
  {
    hide RunPhases, FileOk, Succession, LogNames, HeadsFirst, HeadAt, OnlyForward, SignedChainOk, File;
    var phases := [Replaying(former, tick), Silent(next)];
    var archive := ReplayedWindows(assetId, former, next, tick);
    SecondIsNotFirst(assetId, phases);
    head := HeadAt(assetId, phases, 1).value;
    var rotations := RotatedAt(assetId, former, next, head);
    RotatedAtNames(assetId, former, next, tick, head);
    OneRotationSucceeds(Trusting(), former.publicKey, rotations);
    RotatedFileVerifiesIff(Trusting(), assetId, phases, rotations);
  }

  lemma OneRotationSucceeds(crypto: Crypto, genesis: string, rotations: seq<SignedRotation>)
    requires crypto == Trusting() && |rotations| == 1
    requires rotations[0].rotation.epoch == 1 && rotations[0].rotation.fromPublicKey == genesis
    requires rotations[0].rotation.toPublicKey != genesis
    ensures Succession(crypto, genesis, rotations)
  {
    assert Keys(genesis, rotations)[..1] == [genesis];
  }
}
