# Verification of async-hwi

A Dafny model of the parts of async-hwi in which several functions, threads or rounds have to work
together, and proofs of what they keep.

* `Discovery`, `DiscoveryInvariants`, `DiscoveryRuns`, `DiscoveryRaces`, `DiscoveryCycles`,
  `DeviceRegistry`: the device discovery service (`src/service.rs`) as a step system. A state holds the shared device map, all tasks and all
  listeners with their program counters, the message queue and a consumer. Every lock section,
  `is_finished` read, spawn and send is one step; what a device answers is part of the event. Tasks
  whose handle was dropped keep running. Any number of listeners, tasks and ids may exist. The
  cleanup shared by all families is also written as a method of a class.
* `Lifecycle`: `start` and `stop` at the granularity of their atomic operations, with any number of
  client threads and listeners, and the two methods in imperative form.
* `PsbtModel`, `DerivationFilter`, `SigningRounds`, `Signatures`: hiding and restoring BIP32
  derivations, repeated signing rounds, merging signatures, and the copying loops of the Coldcard, the
  Specter and the Ledger (`src/utils.rs`, `src/coldcard.rs`, `src/specter.rs`, `src/ledger.rs`).
* `Text`, `Bip389`, `Template`, `Markers`: the multipath derivation parser at character level, the
  extraction of keys from a policy, the search for a key's derivation in a template and the address
  path (`src/bip389.rs`, `src/utils.rs`, `src/bitbox.rs`). `Template.Faithful` lists what the round trip
  asks of a policy: keys are nonempty, contain no `@` or `#` and do not start with a digit, the other
  text contains no `@`, and a key occurs only where it was matched. `Markers.KeysClosed` is what the
  results on the search ask besides: each key is followed either by a slash and its steps, which end at
  a `,`, a `)` or the end before any other key, or by something that starts with neither a digit nor a
  slash and steps. Keys in descriptors always are.
* `Jade`: reassembling extended data and reading one response from the stream (`src/jade/mod.rs`).
* `Version`: printing and parsing versions (`src/lib.rs`).

## Where the code and its documentation disagree

The model follows the code.

* `stop` says that the last caller joins the listener thread (`src/service.rs:519`); it only raises the
  flag and drops the handle. A 0-to-1 start can bring about two live listeners exactly if one is
  live as it begins (`Lifecycle.QuickRestartKeepsBoth`) or another start still owes its spawn
  (`Lifecycle.LateSpawnKeepsBoth`); `Lifecycle.SecondListenerIff` states this for every state.
* The shutdown flag is meant to follow the count (`src/service.rs:485-486`, `544-545`). It does as long as
  no 0-to-1 or 1-to-0 transition overtakes the flag store of an earlier opposite one
  (`Lifecycle.FlagTellsCountIfOrderly`); any transition that overtakes one can leave them contradicting
  each other (`Lifecycle.DisorderlyFlipMisleads`), such as a held service without any listener
  (`Lifecycle.OverlapLosesListener`).
* `Update` is documented as "device map changed" (`src/service.rs:377-378`). For a Ledger on the HID
  bus it is sent at the spawn of the task, before the insert (`DiscoveryRuns.LedgerUpdateIsLost`). Only
  insertions are affected (`DiscoveryInvariants.RemovalsAreNotLost`).
* The map check of `should_poll` promises not to poll a device that is in the map
  (`src/service.rs:859`). A read that finds the id absent can be overtaken before the spawn exactly if
  some task of that id had not done its last insertion (`DiscoveryRaces.SpawnOverIff`, with the run
  `DiscoveryRuns.SpawnWhilePresent`).
* The cleanups of the Specter and Ledger families also remove the entries of the simulators
  (`DiscoveryRuns.CleanupEvictsSimulators`).
* The example at `src/utils.rs:37-40` wants the smallest path per fingerprint; the sort keeps the
  greatest (`DerivationFilter.GreatestNotSmallest`). A smallest path stays exactly if it is the only one
  of its fingerprint (`DerivationFilter.SmallestStaysIff`).
* The search for the derivation of key 1 compares by substring, so it can return that of key 10
  (`src/bitbox.rs:465`). If the first occurrence of a key has steps, they are returned exactly if they do
  not parse without a wildcard (`Markers.SelectsOwnDerivation`, with the policy of
  `Markers.FindsOtherKey`). If it has none, the key's first steps are returned exactly if moreover no
  earlier steps of a longer number decide otherwise (`Markers.SelectsLaterDerivation`, with the policy of
  `Markers.BareKeyIsMissed`).
* The extended-data loop takes for granted that the numbers advance (`src/jade/mod.rs:277-305`). It ends
  exactly at an error, a missing field or a last number (`Jade.LoopEndsAtLast`).
* `\d` in the version expression (`src/lib.rs:116`) also matches digits outside ASCII, which the
  standard it cites excludes (`Version.DigitBeyondStandard`). A prerelease meets the standard exactly if
  it is accepted and ASCII (`Version.PrereleaseIsStandard`).
* The comment at `src/bip389.rs:41-42` shows an index hardened by `H`; the child number parser accepts
  `'` and `h` only (`Bip389.HardenedMarks`).

## Model

| member | source | states |
|---|---|---|
| DiscoveryInvariants.StepKeepsInv | src/service.rs:661-940 | Every step of any listener, task or consumer keeps the joint invariant: well-placed program counters and handles, owned entries, pending notifications, the count of dropped handles |
| DiscoveryInvariants.ReachableInv | src/service.rs:621-765 | The invariant holds after every run from the empty service, whatever the interleaving, plugging and unplugging |
| DiscoveryInvariants.UpdatesAreNotLost | src/service.rs:927-933 | In every reachable state, if the consumer's view differs from the map at an id other than a HID Ledger's, an Update is queued, a re-read is under way, or some thread is between its map write and its send |
| DiscoveryInvariants.RemovalsAreNotLost | src/service.rs:927-933 | In every reachable state, for every id including a HID Ledger's, an id that the consumer's view shows and the map lacks has an Update queued, a re-read under way or a send to come |
| DiscoveryRuns.LedgerUpdateIsLost | src/service.rs:1821-1856 | For every HID Ledger id some run ends with the Ledger in the map, the view without it and no re-read due |
| DiscoveryRuns.NotifiedUnlessHidLedger | src/service.rs:1799-1865 | An id is always notified in every reachable state if and only if it is not a HID Ledger id |
| DiscoveryInvariants.LockedBitBoxHasTask | src/service.rs:1533-1610 | Each Locked BitBox02 entry is answered for by the live task of that id that inserted it and still has its final write to do, also after unplug, replug and detached tasks; none outlives its task |
| DiscoveryInvariants.FinalWriteUnlocks | src/service.rs:1590-1610 | In every reachable state the final write of a BitBox02 task leaves no Locked entry at its id and none of its connection anywhere, touches no other id and leaves its Update to be sent next |
| DiscoveryInvariants.NoTaskPanics | src/service.rs:1553-1562 | The cell of a Locked device is full when its task takes it, so the unreachable branch is never reached |
| DiscoveryInvariants.LockedJadeWithoutTask | src/service.rs:1324-1338 | A Locked Jade entry has no task in charge exactly when its task got nothing back after the unlock or found the Jade locked again |
| DiscoveryRuns.JadeCanStayLocked | src/service.rs:1303-1338 | Every Jade id can be stuck: Locked, no task in charge, and no continuation that keeps listing it changes the entry or spawns a task |
| DiscoveryRuns.JadeCanBeFoundLockedAgain | src/service.rs:1324-1338 | For every Jade id some run ends with its entry Locked after an unlock and its task finished |
| DiscoveryRuns.LedgerOpenCanFail | src/service.rs:1799-1863 | For every HID Ledger id some run fails to open it and goes on to the next id with no task or entry for it |
| DiscoveryInvariants.TaskBound | src/service.rs:928-932 | Within one listener run the live tasks of an id never exceed one plus the number of times cleanup dropped its handle |
| DiscoveryInvariants.TaskBoundOverall | src/service.rs:928-932 | Over all listeners the live tasks of an id never exceed the sum of one plus the drops of each listener |
| DiscoveryInvariants.SpawnsOverIdleHandle | src/service.rs:868-884 | A task is spawned only while the handle of its id has no unfinished task, so only dropped handles account for other live tasks |
| DiscoveryRaces.AppearsIff | src/service.rs:859-866 | An id absent at the map read can be put there by steps of tasks and the consumer if and only if some task of it is still connecting or in charge |
| DiscoveryRaces.SpawnOverIff | src/service.rs:850-884 | A listener that has just found an id absent can, without a step of another listener, come to spawn a task while the id is in the map if and only if that held at its read; for every family and, with the same reads at `src/service.rs:779-799`, for both simulators |
| DiscoveryRuns.SpawnWhilePresent | src/service.rs:859-884 | For every Jade id some run ends with a task being spawned while the id is in the map |
| DiscoveryCycles.EveryIdIsPolled | src/service.rs:967-984 | In every run in which a listener leaves the stage of a family, each id the enumeration listed was polled on the way, whatever each open returned and whatever others did; the same for the loops over the other families (`src/service.rs:1467-1572`, `1645-1757`, `1799-1863`) |
| DiscoveryCycles.CleanupNeedsEnumeration | src/service.rs:964-974 | In every run a cleanup works on the ids of an enumeration of its family that succeeded, so one that fails evicts nothing |
| DiscoveryCycles.CycleVisitsAll | src/service.rs:661-764 | In every run a listener does not go to sleep before it has visited every family, whatever fails on the way |
| DiscoveryCycles.CycleNeedsCheck | src/service.rs:661-679 | In every run no refresh comes without a look at the flag that found it lowered, no cycle without a refresh that succeeded, and no end of a cycle without sleep |
| DiscoveryCycles.ExitIsFinal | src/service.rs:632-669 | A listener that could not initialise or found the flag raised never steps again |
| DiscoveryCycles.FailuresAreReported | src/service.rs:636-679 | Over every run, error messages queued and received are exactly the failed initialisations and refreshes |
| DiscoveryCycles.OneUpdatePerWrite | src/service.rs:767-1865 | Over every run, updates received and on their way are exactly the writes that call for one: cleanups that remove something, spawns for HID Ledgers, other insertions, removals of what is there, failed unlocks |
| DiscoveryCycles.MapIsLastWrite | src/service.rs:767-1865 | Over every run the map holds at each id what was last written there, whichever task or cleanup wrote it |
| DiscoveryCycles.UnlockingHasEmptyCell | src/service.rs:1553-1562 | In every reachable state the cell of a device that is being unlocked is empty and no other task's step fills it |
| DiscoveryCycles.EntriesFitTheirKind | src/service.rs:767-1865 | In every reachable state a BitBox02 entry is Locked until its unlock and Supported after it, of the others only a Jade's is ever Locked, and a Specter's is never Unsupported |
| DiscoveryRuns.SettledStep | src/service.rs:850-933 | One step that keeps listing a settled id leaves its entry, its tasks and its settledness alone |
| DiscoveryRuns.SettledForever | src/service.rs:661-764 | Over any number of cycles with arbitrary changes elsewhere, an entry of a non-simulator id without live task that stays listed is never changed and no task is spawned for it |
| DiscoveryRuns.CleanupsCommute | src/service.rs:902-933 | Cleanups of different families select disjoint ids and commute |
| DiscoveryRuns.CleanupEvictsSimulators | src/service.rs:902-933 | From every reachable end of a scan, whatever others do between the two locks of the cleanup, a simulator's entry the scan saw is evicted if and only if the family is Ledger for the Ledger simulator, or Specter without a port of that name for the Specter simulator |
| DeviceRegistry.PollStepsDecide | src/service.rs:850-884 | In every reachable state the two undisturbed reads decide to poll if and only if the id is not in the map and each live task this listener has for it is one whose handle a cleanup dropped; otherwise the id is skipped |
| DeviceRegistry.SimulatorStepsDecide | src/service.rs:777-798 | The same for the two reads of a simulator's handler: it is tried if and only if its id is not in the map and no tracked task of it is live; otherwise the next family follows |
| DeviceRegistry.SpawnIsTracked | src/service.rs:799-839 | A task is spawned exactly by a simulator's handler or an open that succeeds, for the id polled, and the handle tracks it |
| DeviceRegistry.WhatCanFail | src/service.rs:964-1865 | A listener can fail to enumerate exactly the serial families and to open exactly those on the HID bus |
| DeviceRegistry.WhatTasksCanDo | src/service.rs:801-1862 | Which tasks can end without a write, remove their id before or after an unlock, or give up an unlock: a HID Ledger's task always inserts, only a Jade's can leave an unlock without a write |
| DeviceRegistry.Registry.CleanupDisconnected | src/service.rs:886-940 | Keeps exactly the entries of other families and of connected ids, drops the handles of the removed ones, and sends one Update if and only if something was removed |
| DeviceRegistry.CleanupStepsMeetContract | src/service.rs:902-939 | The three steps of the step system, undisturbed, do what CleanupDisconnected promises |
| Lifecycle.StepKeepsInv | src/service.rs:474-563 | Every atomic step of any thread keeps the counting invariant |
| Lifecycle.CountAndFlips | src/service.rs:475-536 | In every interleaving the count is the starts minus the successful decrements, never underflows, and 0-to-1 and 1-to-0 transitions strictly alternate |
| Lifecycle.SpawnsMatchFlips | src/service.rs:478-547 | Once all calls have returned, listeners spawned equal 0-to-1 transitions and raised flags equal 1-to-0 transitions |
| Lifecycle.StopIsBounded | src/service.rs:523-562 | A stop still in its loop has taken at most two steps per change other threads made to the count since it was called, plus one |
| Lifecycle.StopsAreAccountedFor | src/service.rs:520-562 | In every interleaving each call of stop is in its loop, has lowered the count once or has found it at zero |
| Lifecycle.UndisturbedExchangeSucceeds | src/service.rs:529-555 | An exchange before which the count was not changed since the load succeeds and leaves the loop |
| Lifecycle.FlagTellsCountIfOrderly | src/service.rs:485-544 | In every interleaving in which no transition overtakes the opposite flag store, whenever no flag store is owed, after the first start, the flag is lowered exactly while the count is positive |
| Lifecycle.DisorderlyFlipMisleads | src/service.rs:485-544 | From every reachable state, after a transition that overtakes the opposite flag store some continuation ends with all calls returned and the flag contradicting the count |
| Lifecycle.AtMostOneListener | src/service.rs:474-517 | In every interleaving in which no 0-to-1 transition happens while a listener is live or a spawn is owed, no two listeners are live together |
| Lifecycle.SecondListenerIff | src/service.rs:474-517 | From every state with count zero, whatever calls are under way, the next start and what then runs without a further call never lead to two live listeners if and only if as it begins no listener is live and no other start owes its spawn |
| Lifecycle.LateSpawnKeepsBoth | src/service.rs:475-509 | Two threads with overlapping calls get two live listeners although none is live when the second start begins |
| Lifecycle.QuickRestartKeepsBoth | src/service.rs:544-547 | One client that stops and starts again without overlapping calls gets two live listeners |
| Lifecycle.OverlapLosesListener | src/service.rs:535-547 | With overlapping calls the flag can stay raised and all listeners leave while the count is one |
| Lifecycle.StartHoldsService | src/service.rs:474-517 | From every reachable state between calls the steps of a start end with the flag lowered, whatever the count was, and from zero with a new live listener whose handle is kept; they have the effect of the method Start |
| Lifecycle.StopReleasesService | src/service.rs:519-563 | From every reachable state between calls the steps of a stop lower a positive count by one, raise the flag and drop the handle only if it was one, leave flag, handle and listeners alone otherwise, and keep the flag lowered while the service is held |
| Lifecycle.LeavesIfTold | src/service.rs:632-669 | In every interleaving a live listener leaves if and only if it fails to initialise or finds the flag raised at one of its checks |
| Lifecycle.HwiService.Stop | src/service.rs:520-563 | With other threads acting between any two atomic operations the loop ends, each failed attempt being paid by a change of the count; the exchange decrements by one exactly the positive count it found; a call that gives up found zero; the call itself raises the flag and drops the handle once if it left zero and not at all otherwise; undisturbed it has the effect of StopReleasesService |
| PsbtModel.LessIsLexicographic | src/utils.rs:48-52 | Paths are compared as in a dictionary, a proper prefix first |
| DerivationFilter.Sort | src/utils.rs:48-52 | The priority order is a sorted permutation of all key sources |
| DerivationFilter.PositionComparesPaths | src/utils.rs:60-64 | Comparing first positions in the sorted order is comparing paths |
| DerivationFilter.Bip32DerivationFilter.Ignore | src/utils.rs:29-31 | Moves one derivation aside; what is left and what is aside still make up the original without overlap |
| DerivationFilter.Bip32DerivationFilter.IgnoreSignedKeyDerivation | src/utils.rs:26-35 | Hides exactly the derivations of keys that have signed, conserving each input's map |
| DerivationFilter.Bip32DerivationFilter.PriorityOrder | src/utils.rs:42-52 | Sorts the key sources of all inputs |
| DerivationFilter.Bip32DerivationFilter.Losers | src/utils.rs:55-68 | The pairwise comparison of first positions collects exactly the keys with a smaller path than another key of their fingerprint in the input |
| DerivationFilter.Bip32DerivationFilter.IgnoreSameFgBip32Derivations | src/utils.rs:41-77 | Leaves in each input exactly the derivations whose path is greatest for their fingerprint, conserving each input's map |
| DerivationFilter.Bip32DerivationFilter.SignPsbt | src/utils.rs:80-90 | After a device that changes only signatures the original derivations are back exactly; after a device error they are back exactly if nothing was put aside |
| DerivationFilter.KeepGreatestKeepsFingerprints | src/utils.rs:54-74 | No fingerprint disappears: each hidden key loses against one that stays |
| DerivationFilter.KeepGreatestKeepsOnePath | src/utils.rs:54-74 | One path is left per fingerprint |
| DerivationFilter.KeepGreatestIdempotent | src/utils.rs:41-77 | A second call changes nothing |
| DerivationFilter.SmallestStaysIff | src/utils.rs:37-77 | A key with the smallest path of its fingerprint stays if and only if all keys of that fingerprint in the input have the same path |
| SigningRounds.SignOneRound | src/utils.rs:23-90 | new, ignore signed, ignore same fingerprint, sign with a device that signs one shown key of its fingerprint per input: one round of the relation below |
| SigningRounds.ShownKeys | src/utils.rs:26-77 | The device is shown exactly its unsigned keys with the greatest path |
| SigningRounds.RoundSignsOneKey | src/utils.rs:26-90 | A round adds one signature, of an unsigned key with the greatest path, and changes nothing else |
| SigningRounds.AfterRounds | src/utils.rs:23-90 | After n rounds each input has n fewer unsigned keys, down to zero, and its derivations are intact |
| SigningRounds.RoundsNeeded | src/utils.rs:23-90 | All keys of the fingerprint have signed after n rounds exactly if no input started with more than n unsigned ones |
| SigningRounds.NeverSignsTwice | src/utils.rs:23-34 | A key that has signed is never signed again in a later round |
| Signatures.MergeSignatures | src/utils.rs:93-113 | The loop merges input by input and skips inputs the caller does not have |
| Signatures.MergeIsUnion | src/utils.rs:102-110 | The merge is the right-biased union of the signature fields and leaves all other fields alone |
| Signatures.MergeIsIdempotent | src/utils.rs:93-113 | Merging twice is merging once |
| Signatures.MergeIsAssociative | src/utils.rs:93-113 | Merging two copies in turn is merging their merge if and only if the second brings nothing new for the caller's inputs that the first does not have |
| Signatures.OrderIndependent | src/utils.rs:93-113 | The order of two signers does not matter if and only if they agree wherever both signed |
| Signatures.ColdcardCopy | src/coldcard.rs:144-154 | The Coldcard loop is the merge |
| Signatures.SpecterCopyInput | src/specter.rs:132-158 | One iteration in place: the merge with the witness signature taken into account, and whether any signature was found; the caller's input is needed only then |
| Signatures.SpecterCopy | src/specter.rs:130-162 | The Specter loop is the merge with witness signatures taken into account; it fails exactly when no input carries a signature, and then changes nothing |
| Signatures.SpecterTakes | src/specter.rs:131-158 | Field by field: the key-path signature is the returned one, else that in the first witness element, else the caller's; which inputs count as signed |
| Signatures.LedgerCopy | src/ledger.rs:177-194 | The Ledger loop is the merge of the gathered signatures up to the first object whose input does not exist, and fails exactly if there is one |
| Signatures.LedgerKeepsLast | src/ledger.rs:177-194 | For each input, each partial signature, script signature and the key-path signature is the last one yielded for its place, else the caller's; other objects and fields change nothing |
| Text.U32Texts | src/lib.rs:123-137 | What reads as a u32 is exactly an optional plus sign, any number of zeros and the numeral of a number below 2^32 |
| Bip389.PushStep | src/bip389.rs:88-108 | The in-place iteration extends every path and appends copies of the first with the last index overwritten |
| Bip389.FoldIsProduct | src/bip389.rs:45-108 | The in-place fold equals the product of the steps if and only if at most one step has several alternatives |
| Bip389.ProductEntries | src/bip389.rs:81-108 | One path per alternative of the multipath step; each has one index per step; path j takes alternative j there and agrees with the others elsewhere |
| Bip389.ParseParts | src/bip389.rs:27-113 | The loop with its captured flags and in-place fold computes the product of the accepted steps or the first error |
| Bip389.ParseXkeyDeriv | src/bip389.rs:21-116 | The same after replacing the double star and splitting |
| Bip389.AcceptedExactly | src/bip389.rs:27-80 | Accepted are exactly the parts that are steps with at most one multipath step and at most a final wildcard; each contributes its alternatives |
| Bip389.FirstErrorDecides | src/bip389.rs:27-80 | After any accepted parts, which of the five errors the next part gives: anything after a wildcard, a second bracketed step, a bracketed step too short or without a separator, a bad alternative, any other text that is no index |
| Bip389.ParsePrint | src/bip389.rs:21-116 | Parsing the printed form of any valid steps and wildcard returns exactly their paths and that wildcard |
| Bip389.DoubleStar | src/bip389.rs:27 | A final double star stands for the steps 0 and 1 and an unhardened wildcard |
| Bip389.AcceptedIsPrintable | src/bip389.rs:21-116 | Whatever is accepted with at least one path means what the printed form of some valid steps means |
| Bip389.HardenedMarks | src/bip389.rs:41-42 | A numeral followed by another character is a child number if and only if the index is below 2^31 and the character is `'` or `h`; it is then hardened |
| Bip389.ChildTexts | src/bip389.rs:62-78 | The texts of a child number are exactly an optional plus sign, zeros, the numeral of an index below 2^31, and a mark if and only if it is hardened |
| Bip389.MultiStepAccepted | src/bip389.rs:43-72 | A multipath step is accepted if and only if it has at least two alternatives and each is a child number; which error it gives otherwise |
| Bip389.BadPartRejects | src/bip389.rs:27-80 | A derivation without stars in which any part is no step is rejected |
| Bip389.EmptyIndexRejected | src/bip389.rs:189-191 | A derivation that ends in a multipath step with an empty alternative in any place is rejected |
| Template.ExtractKeysAndTemplate | src/utils.rs:134-158 | Returns the distinct matches parsed in order and the policy with each replaced in turn and the checksum cut, and fails exactly if some key does not parse |
| Template.NumbersAppearInOrder | src/utils.rs:137-142 | Every key has a number that occurs, and each number below one that occurs has occurred before it |
| Template.KeysAreMatches | src/utils.rs:137-142 | The keys are exactly the matches, without repetition |
| Template.ReplaceKeysRenders | src/utils.rs:145-146 | Replacing key after key in the whole text puts a marker at every match and nowhere else |
| Template.TemplateIsRendering | src/utils.rs:145-157 | The template is the policy before its checksum with every match replaced by its marker |
| Template.BodyIsExtracted | src/utils.rs:145-157 | The template of a policy with a checksum is everything before the last hash sign with every match replaced by its marker, and putting the keys back gives that body if and only if no digit directly follows a key in it |
| Template.PolicyIsExtracted | src/utils.rs:145-157 | The same for a policy without checksum and the whole of it |
| Template.ExtractionIsInvertible | src/bitbox.rs:398-456 | Putting the keys back for the markers gives the policy without its checksum if and only if no digit directly follows a key |
| Template.ExtractionIsInjective | src/utils.rs:134-158 | Then equal templates and keys come from policies equal up to the checksum |
| Markers.CapturesAreMatches | src/bitbox.rs:463 | In any text each capture is a match of the expression |
| Markers.NoMatchMissed | src/bitbox.rs:463-464 | A text that contains a match of the expression anywhere has a capture |
| Markers.CapturesOfRendering | src/bitbox.rs:463-464 | The capture expression finds one capture per key occurrence with steps, marker, slash and steps, and none for a bare key |
| Markers.ContainsIsSubstring | src/bitbox.rs:465 | The test holds if and only if the marker is a substring of the capture |
| Markers.MentionsByPrefix | src/bitbox.rs:465 | The substring test for a marker succeeds exactly if the numeral of the capture begins with that of the key |
| Markers.FindsFirstDecider | src/bitbox.rs:459-476 | With keys followed as in descriptors, bare or by steps, the search in an extracted template returns the parse of the first steps after a marker whose numeral begins with that of the key that do not parse without a wildcard, and no path if and only if there are none |
| Markers.SelectsOwnDerivation | src/bitbox.rs:459-476 | With keys followed as in descriptors, if the first occurrence of a key has steps the search returns their parse if and only if they do not parse without a wildcard |
| Markers.SelectsLaterDerivation | src/bitbox.rs:459-476 | With keys followed as in descriptors, whether or not earlier occurrences of a key are bare, the search returns the parse of its first steps if and only if they do not parse without a wildcard and the first earlier steps of a longer number that decide, if any, parse to the same |
| Markers.FindsPrintedSteps | src/bitbox.rs:459-476 | If the first occurrence of a key has printed steps, the search returns their paths and wildcard if and only if there is a wildcard |
| Markers.FindsOtherKey | src/bitbox.rs:465-473 | A policy with eleven keys for which the search for key 1 returns what follows key 10 and not its own derivation without a wildcard |
| Markers.BareKeyIsMissed | src/bitbox.rs:463-473 | A policy in which key 1 is first bare and later has a wildcard derivation, for which the search for key 1 returns what follows key 10 in between |
| Markers.AddressPath | src/bitbox.rs:229-263 | The path is that of the first key with the device's fingerprint, then its receive or change branch, then the index, or the corresponding error |
| Markers.AddressOfPolicy | src/bitbox.rs:229-263 | In an extracted policy, for a key whose first occurrence has printed steps and a wildcard, the path is its origin if it has one, then the second path of those steps if change is asked for and they have a multipath step and else the first, then the index, hardened if the wildcard is, or the index error |
| Markers.AddressOfStranger | src/bitbox.rs:231-234 | Without a key of the device's fingerprint the path is empty |
| Markers.AddressWithoutWildcard | src/bitbox.rs:238-258 | A key for which no wildcard is found has its origin as path for every index |
| Markers.AddressOfBadSteps | src/bitbox.rs:238-242 | If the first steps of the key do not parse, that error is reported |
| Jade.FetchRest | src/jade/mod.rs:277-306 | The loop makes the requests and returns the bytes or the first error of the exchange |
| Jade.SignTx | src/jade/mod.rs:255-316 | Merges the decoded answer; every error leaves the caller's transaction unchanged |
| Jade.ChunkedAnswerIsRebuilt | src/jade/mod.rs:275-308 | A device that splits its bytes into n numbered chunks is asked exactly n - 1 times and its bytes are rebuilt in order |
| Jade.LoopEndsAtLast | src/jade/mod.rs:277-305 | The loop makes one request more than there are answers before the first that is an error, lacks a field or carries the last number; that answer decides between all bytes so far in order, the device's error and a missing field; if there is none the transport's error is reported |
| Jade.ExchangeOutcome | src/jade/mod.rs:256-308 | The whole exchange: an error or missing result of the first answer, the short answer without numbers, or the outcome of the loop |
| Jade.AdvancingDeviceIsBounded | src/jade/mod.rs:277-305 | If every answer brings the number closer to the length, their distance bounds the requests |
| Jade.StuckDeviceIsAskedForever | src/jade/mod.rs:277-305 | A device that repeats an unfinished number is asked as often as it answers |
| Jade.ReadStream | src/jade/mod.rs:355-386 | Returns at the first read after which the buffer decodes, or the error of the stream |
| Jade.ReadingEnds | src/jade/mod.rs:364-386 | While nothing decodes, a failed read gives the transport's error, and the end of the stream or silence gives no result |
| Jade.ReadingStops | src/jade/mod.rs:358-376 | The response is that of the first read after which the buffer decodes, whatever would come later |
| Jade.ReadStreamNeedsBoundary | src/jade/mod.rs:358-376 | Without timeout, error or end of stream the response is returned if and only if some read ends where its encoding ends |
| Jade.ChunkingDoesNotMatter | src/jade/mod.rs:358-376 | Every way of splitting an encoding into reads yields the same response |
| Version.VersionRoundTrip | src/lib.rs:114-185 | Whatever digits outside ASCII the expression also matches, a displayed version with u32 fields reads back as itself if and only if its prerelease is absent, or accepted by the expression and not ending in X |
| Version.ParsesExactly | src/lib.rs:114-150 | What is accepted after trimming is exactly two or three u32 numerals without leading zeros, a missing patch counting as 0, then possibly a prerelease, which is kept, then possibly build metadata, which is dropped |
| Version.DecorationIsTrimmed | src/lib.rs:117-121 | Leading v and the suffix QX, however often, do not matter to a text that does not end in X; final X do not either, if and only if it is not a single one after a Q |
| Version.PrereleaseIsStandard | src/lib.rs:115-116 | A prerelease satisfies items 2 and 9 of Semantic Versioning 2.0.0 if and only if the expression accepts it and it is ASCII |
| Version.DigitBeyondStandard | src/lib.rs:116 | The text 1 followed by U+0663 is accepted by a digit class with that digit and does not satisfy the standard; after a letter that digit is not accepted |
| Version.BuildIsStandard | src/lib.rs:116 | Build metadata is accepted if and only if it satisfies item 10 of the standard |

## Left out

- HID, serial, TCP and HTTP transports, the pin server and the pairing handshake: what a device answers is an arbitrary choice of the event or a parameter.
- Cryptography and the PSBT, CBOR and extended key formats: decoders and key parsers are arbitrary functions, keys and signatures are abstract values.
- The regex engine: matches of the key expression are given as pieces of the policy; the capture expression of the BitBox02 search and the version expression are written out as recognisers; a marker with digits outside ASCII, which extraction never writes, is not captured.
- Lengths in bytes: a step with characters outside ASCII fails in both, possibly with another parse error.
- Composition of `Lifecycle` with `Discovery`: a listener of the discovery model may find the shutdown flag raised or lowered at any check.
- Several message channels: all listeners and tasks of the discovery model send to the channel of the one consumer.
- Task panics, cancellation at runtime shutdown, a disconnected receiver, and consumers that write to the public map or empty a locked cell.
- Time: the two second sleep and the timeouts are arbitrary choices.
- `SupportedDevice` forwarding methods, error conversions, `DeviceKind` parsing, the Jade API types, version comparison, the tapminiscript table and the command line tool: they would add only easy members.
- Parsing of key origins in `extract_script_config_policy`: the key parser is a parameter, so which key text is malformed is not modelled.
- SignPsbt: a device that returns more inputs than it was given makes the program panic and is excluded.
- LedgerCopy: the error of a Ledger without a policy, which is returned before the loop.
- ColdcardCopy: a device that returns more inputs than the caller has makes the program panic and is excluded.
- SpecterCopy: a device that returns a signature for an input the caller does not have makes the program panic and is excluded.
