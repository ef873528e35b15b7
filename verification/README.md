# Halon consensus in Dafny

A model of the consensus layer of Halon, the cluster manager, and proofs about
it: basic Paxos as its acceptors and proposers run it, synchronisation and
recovery of a group, leases that live in memory, the Promela model that is
explored with Spin, the online agreement checks, the task queue of the Mero
bindings, and the program that extracts the Promela text.

`dafny verify dfyconfig.toml` checks everything.

## What is modelled

**Basic Paxos** (`PaxosModel`). The state of the system is the acceptors
(first decree kept, ballot in memory, ballot in the store, stored votes), the
running proposals, the packets under way and the utility processes that wait
for them. The steps are: propose, an acceptor handles a request, a proposer
hears a reply, a proposer times out and sends its round again, a proposal is
interrupted, an acceptor is trimmed, an acceptor restarts. A packet may be
handled at any time or never, but only once. Any number of acceptors, proposers
and decrees; every list of enabled steps from a new group is a run. The rest of
the state is history: values asked for, values sent with the majority that
justified them, votes cast, values returned.

The proofs are layered. `PaxosInvariant` states the invariant and which steps
are clean, `PaxosSteps`, `PaxosRounds` and `PaxosSafety` prove that clean steps
keep it and what it gives, `PaxosAlways` what holds in every run, and
`PaxosHistory` what acceptors and proposers do, told from the steps of the run
alone. `PaxosMoves` builds long runs for groups of any size; `AgreementLimits`
uses them to show exactly when agreement holds, `StoreLimits` exactly when an
acceptor keeps its highest vote.

**Synchronisation, query and recovery** (`Intervals`, `Sync`, `GaplessSync`,
`SyncLimits`, `Recovery`, `RecoveryLimits`, `RecoveredGroup`, `RecoveryLosses`,
`Query`). The interval arithmetic of an advertisement, the exchange of
advertisements, requests and answers over every interleaving, and what a group
started from recovered states returns later: from the run of the old group to
the proposals of the new one, where it keeps the chosen values and where not.

**Leases** (`Leases`). Acceptors that grant a lease for a time, forget it when
they restart and then stay silent for a time, with one clock.

**The Promela model** (`AckSets`, `ModelScout`, `PidTable`, `Mailbox`,
`AgreementCheck`). Its arrays, loops and shared channel, changed in place, each
proved against a function or a property of its abstract value; and its scout in
the runs of the code.

**Tools** (`M0Worker`, `Extractor`). The worker threads and channel of `withM0`,
as steps that interleave; the fragment extractor.

## What the code does differently from what it says

The model follows the code.

- A refused command starts over with the number of the refusing ballot copied,
  not increased (`BasicPaxos.hs:292`), so it may use its own ballot again for
  another value. Two acceptors hide this; three do not.
- A proposal starts from ballot 0 whatever its process has sent before
  (`BasicPaxos.hs:261-271`), so a process whose proposal was interrupted may use
  a ballot again for another value.
- An acceptor stores its ballot when it votes at a higher ballot than it held,
  not when it promises (`Paxos.hs:184-193` and `205-208`). A restart forgets
  promises, and a vote at the ballot just promised; a lower vote may then
  overwrite it.
- `diffIntervals` is not the difference its comment states
  (`Paxos.hs:312-321`), answers to a synchronisation overwrite newer votes, and
  no ballot comes with them; so `prl_sync` does not always keep what was
  proposed successfully (`Consensus.hs:172-173`).
- The Promela acceptor sends the ballot of the request with a vote where the
  Haskell acceptor sends the ballot of the vote (`Paxos.hs:341-349`, `189-193`).
- `withM0` starts its worker thread without waiting for it to replace the
  default worker (`Mero.hsc:61-72`), so the stop token can go to the wrong one.
- `Messages.hs` documents an acknowledgement as carrying the acceptor that sent
  it; the type has no such field, and none is modelled.

## Model

| member | source | states |
|---|---|---|
| `AgreementLimits.AgreementExactly` | consensus-paxos/src/Control/Distributed/Process/Consensus/BasicPaxos.hs:261-295 | For a group of any size n, and runs that may or may not reuse a ballot, forget a promise, or forget a value put forward: all runs agree **if and only if** n is 0, or nothing is forgotten and either no ballot is reused or n is at most 2. Each kind is the guard of a step: the branch of the retry, the restart, the interruption |
| `PaxosSafety.CleanRunsAgree` | consensus-paxos/tests/random.hs:99-107 | Agreement over every run, any number of acceptors, proposers, decrees and steps, any interleaving, loss and delay: two proposals of one decree return one value, as long as no step is one of the three below |
| `AgreementLimits.ReuseBreaksAgreement` | consensus-paxos/src/Control/Distributed/Process/Consensus/BasicPaxos.hs:287-292 | With three or more acceptors a run without restarts returns 10 and 20 for one decree: a refused command starts over at the number of the refusing ballot, which may be its own |
| `AgreementLimits.RestartsBreakAgreement` | consensus-paxos/src/Control/Distributed/Process/Consensus/Paxos.hs:184-193 | With at least one acceptor a run in which nothing happens but restarts returns two values for one decree: a promise is never written to the store |
| `AgreementLimits.InterruptionsBreakAgreement` | consensus-paxos/src/Control/Distributed/Process/Consensus/BasicPaxos.hs:261-271 | With at least one acceptor a run without refusals and restarts returns two values for one decree: a proposer interrupted after it has put a value forward starts again from ballot 0 |
| `AgreementLimits.AllowedRunsAreClean` | consensus-paxos/src/Control/Distributed/Process/Consensus/BasicPaxos.hs:287-292 | A run none of whose steps is of the three kinds is clean, and in a group of at most two a run that reuses ballots is clean too |
| `AgreementLimits.ReuseIsMet` | consensus-paxos/src/Control/Distributed/Process/Consensus/BasicPaxos.hs:287-292 | A group of any size meets the reused ballot in a clean run, a group of two included; what makes it harmless there is the next row |
| `PaxosRounds.ReusedScoutStaysShort` | consensus-paxos/promela/main.pml:11-20 | A proposer back at a ballot it has used, on a decree it has not finished, never hears the promises of a majority: in a group of at most two, the size the Promela model is explored for, whoever refused it is needed |
| `PaxosSafety.CleanRunsKeepChosen` | consensus-paxos/src/Control/Distributed/Process/Consensus/Paxos.hs:79-87 | Once a majority has voted for x at ballot b in a clean run, every value sent for the decree at b or above is x |
| `PaxosSafety.ChosenIsStable` | consensus-paxos/src/Control/Distributed/Process/Consensus/Paxos.hs:79-87 | The same from the invariant alone, by induction on ballots through the majority that justified each value (Lamport's B2 and B3) |
| `PaxosSafety.VotersBind` | consensus-paxos/src/Control/Distributed/Process/Consensus/Paxos.hs:79-87 | Any voters that every majority meets, not only a majority, bind all values sent at their ballot or above |
| `PaxosSafety.SmallVotesAgree` | consensus-paxos/src/Control/Distributed/Process/Consensus/Paxos.hs:79-87 | In a group of at most two all votes ever cast on a decree have one value |
| `PaxosSafety.CleanRunsOneValue` | consensus-paxos/tests/Test.hs:107-131 | In a clean run all commands with one ballot and decree carry one value, and the ballot has the pid of the proposer that sent it (Lamport's B1) |
| `PaxosSafety.DecisionsAgree` | consensus-paxos/tests/random.hs:103-107 | Two decisions on one decree agree, from the invariant |
| `PaxosSafety.StepKeeps` | consensus-paxos/src/Control/Distributed/Process/Consensus/Paxos.hs:148-221 | The inductive invariant (packets, votes, promises, justifications, own earlier ballots) survives every clean step of acceptors and proposers |
| `PaxosSafety.RunKeeps` | consensus-paxos/src/Control/Distributed/Process/Consensus/BasicPaxos.hs:261-295 | The invariant holds in every state a clean run reaches |
| `PaxosRounds.ChooseVoteIsHighest` | consensus-paxos/src/Control/Distributed/Process/Consensus/Paxos.hs:89-97 | The vote chosen from a list is one for the decree, in the list, with no higher one in it, and there is none exactly when the list has none |
| `PaxosRounds.ChoiceIsJustified` | consensus-paxos/src/Control/Distributed/Process/Consensus/BasicPaxos.hs:284-287 | The value put forward after a majority of promises is asked for by somebody and agrees with every vote a member of that majority cast or will cast below the ballot |
| `PaxosRounds.ReusedBallotIsReported` | consensus-paxos/src/Control/Distributed/Process/Consensus/BasicPaxos.hs:284-292 | A proposer that does hear a majority at a ballot it has used has finished the decree before, and one of the promises reports the very vote it asked for then |
| `PaxosRounds.DistinctSize` | consensus/src/Control/Distributed/Process/Quorum.hs:15-19 | A list of different senders names as many acceptors as it has entries |
| `PaxosSteps.HandleKeeps` | consensus-paxos/src/Control/Distributed/Process/Consensus/Paxos.hs:177-217 | Answering a Prepare or a Syn keeps the invariant, whatever else is in the network |
| `PaxosSteps.TrimKeeps` | consensus-paxos/src/Control/Distributed/Process/Consensus/Paxos.hs:218-221 | Trimming an acceptor keeps the invariant; what is trimmed and what stays is `PaxosHistory.HoldsExactly` |
| `PaxosAlways.CountsAreMajorities` | consensus/src/Control/Distributed/Process/Quorum.hs:11-28 | In every run, counting n/2+1 positive replies counts that many different acceptors, although replies do not say who sent them |
| `PaxosAlways.ReturnedWasAsked` | consensus/src/Control/Distributed/Process/Consensus.hs:138-151 | In every run a returned value was asked for by somebody for that decree |
| `PaxosAlways.RefusalIsAbove` | consensus-paxos/tests/Test.hs:96-105 | In every run a refusal reaching a proposer carries a ballot strictly above the one it is using; which ballot it is, and when it is sent, is `PaxosHistory.AnswersExactly` |
| `PaxosAlways.BallotIsHighestAnswered` | consensus-paxos/src/Control/Distributed/Process/Consensus/Paxos.hs:153-156 | Without restarts an acceptor's ballot never falls and is the highest one it has answered positively |
| `PaxosAlways.AcceptsExactly` | consensus-paxos/src/Control/Distributed/Process/Consensus/Paxos.hs:153-156 | P1, both ways: a Syn is accepted if and only if nothing above its ballot was answered positively before and its decree is not trimmed |
| `PaxosAlways.ForgetsExactly` | consensus-paxos/src/Control/Distributed/Process/Consensus/Paxos.hs:205-208 | In every run, a restart forgets a promise **if and only if** the acceptor's ballot was last raised by a Prepare, even if it has voted at that ballot since |
| `PaxosAlways.NothingBelowStart` | consensus-paxos/src/Control/Distributed/Process/Consensus/Paxos.hs:218-221 | In every run an acceptor stores nothing below the first decree it has not trimmed, and that decree never goes back; which decree it is, is `PaxosHistory.HoldsExactly` |
| `PaxosAlways.StepAlways` | consensus-paxos/src/Control/Distributed/Process/Consensus/BasicPaxos.hs:261-295 | What holds in every run, clean or not, survives every step: packet shapes, one reply for a request, values asked for, majorities counted; the ballots of the rounds are `PaxosHistory.ScoutRetry` and `PaxosHistory.CommandRetry` |
| `PaxosHistory.AnswersExactly` | consensus-paxos/src/Control/Distributed/Process/Consensus/Paxos.hs:177-217 | In every run without restarts an acceptor says nothing to a request **if and only if** its decree is trimmed, and refuses it **if and only if** it is not and a higher ballot has been answered positively; the refusal carries the highest ballot answered |
| `PaxosHistory.ScoutRetry` | consensus-paxos/src/Control/Distributed/Process/Consensus/BasicPaxos.hs:277-283 | In every run a refused scout comes back for the same decree and value at its proposer's lowest ballot with a number above the refusing one, above its last ballot too, and whoever refused promises to it unless its ballot has moved or the decree was trimmed |
| `PaxosHistory.CommandRetry` | consensus-paxos/src/Control/Distributed/Process/Consensus/BasicPaxos.hs:287-292 | In every run a refused command comes back with the number it was refused with: above the refusing ballot **if and only if** the pid is higher, the ballot just used **if and only if** the numbers agree, and answered by whoever refused **if and only if** the pid is not lower |
| `PaxosHistory.RoundsAreSent` | consensus-paxos/src/Control/Distributed/Process/Consensus/BasicPaxos.hs:261-295 | In every run, whatever step opens a round, the round starts without replies and its request is on the way to every acceptor |
| `PaxosHistory.TimeoutRepeats` | consensus-paxos/src/Control/Distributed/Process/Consensus/BasicPaxos.hs:55-63 | After a timeout the same request, for the same value, goes to every acceptor again on behalf of a new utility process, and no earlier reply counts |
| `PaxosHistory.HighestTrimIsHighest` | consensus-paxos/src/Control/Distributed/Process/Consensus/Paxos.hs:218-221 | The highest trim of a run is one of its trims of that acceptor, or the initial decree if none is higher, and no trim is higher |
| `PaxosHistory.StoreHistory` | consensus-paxos/src/Control/Distributed/Process/Consensus/Paxos.hs:196-221 | In every run the first decree kept is the highest trim, and the store fits the votes cast |
| `PaxosHistory.HoldsExactly` | consensus-paxos/src/Control/Distributed/Process/Consensus/Paxos.hs:196-221 | In every run an acceptor holds a decree **if and only if** it has voted on it and no trim went beyond it; it holds a vote it cast, and the highest one if no step forgot a promise |
| `PaxosHistory.PromiseReports` | consensus-paxos/src/Control/Distributed/Process/Consensus/Paxos.hs:184-193 | In every run a promise reports no vote **if and only if** its sender has cast none on the decree, and otherwise one it cast, its highest if no step forgot a promise |
| `PaxosHistory.NoRestartsRemember` | consensus-paxos/src/Control/Distributed/Process/Consensus/Paxos.hs:165-171 | A run without restarts forgets no promise |
| `StoreLimits.KeepsHighestExactly` | consensus-paxos/src/Control/Distributed/Process/Consensus/Paxos.hs:165-217 | In all runs of a kind every acceptor keeps its highest vote **if and only if** no step may forget a promise, or the group is empty |
| `StoreLimits.LowerVoteOverwrites` | consensus-paxos/src/Control/Distributed/Process/Consensus/Paxos.hs:165-217 | In a group of any size a restarted acceptor overwrites its vote with one at a lower ballot |
| `PaxosAlways.GroupSizeStays` | consensus-paxos/src/Control/Distributed/Process/Consensus/Paxos.hs:148-281 | No run changes the number of acceptors |
| `PaxosMoves.ReachesByRun` | consensus-paxos/src/Control/Distributed/Process/Consensus/BasicPaxos.hs:261-295 | A state reached by chained stretches of steps is the last state of one run of single steps |
| `PaxosMoves.HearMajority` | consensus-paxos/src/Control/Distributed/Process/Consensus/BasicPaxos.hs:129-139 | A run in which a proposer hears the promises of a whole majority and puts forward the value they settle on |
| `PaxosMoves.CountMajority` | consensus-paxos/src/Control/Distributed/Process/Consensus/BasicPaxos.hs:194-208 | A run in which a proposer hears a whole majority acknowledge its value and returns it |
| `Ballots.SetsMeet` | consensus-paxos/src/Control/Distributed/Process/Consensus/Paxos.hs:82-83 | Two sets of acceptors of more than n members together share one |
| `Ballots.Quorum` | consensus/src/Control/Distributed/Process/Quorum.hs:23-25 | The number waited for is more than half, and is everybody in a group of one or two |
| `Ballots.CmpIsOrder` | consensus-paxos/promela/main.pml:113-136 | The Promela comparison is a total order with the missing ballot least, and is the order of the Haskell ballots |
| `Intervals.ExpandGroup` | consensus-paxos/src/Control/Distributed/Process/Consensus/Paxos.hs:283-310 | Grouping decrees into intervals and expanding them gives the list back, for every list |
| `Intervals.GroupExpand` | consensus-paxos/src/Control/Distributed/Process/Consensus/Paxos.hs:283-310 | Expanding and grouping gives an interval list back **if and only if** its intervals are non-empty, inside one legislature, and none continues the one before |
| `Intervals.GroupMembers` | consensus-paxos/src/Control/Distributed/Process/Consensus/Paxos.hs:286-310 | The intervals of an increasing list hold exactly its decrees, with a gap between neighbours |
| `Intervals.DiffExactly` | consensus-paxos/src/Control/Distributed/Process/Consensus/Paxos.hs:312-321 | The difference of two ordered interval lists is the set difference its comment promises **if and only if** no interval is cut at its right end with decrees left that are not held, and none is passed over that meets a later held one |
| `Intervals.EnoughExactly` | consensus-paxos/src/Control/Distributed/Process/Consensus/Paxos.hs:312-321 | Everything advertised is held or asked for **if and only if** no interval is cut at its right end with decrees left that are not held |
| `Intervals.PrefixIsEnough` | consensus-paxos/src/Control/Distributed/Process/Consensus/Paxos.hs:312-321 | Nothing is missed if no decree that is advertised and not held comes before one that is held |
| `Intervals.DiffGoesWrong` | consensus-paxos/src/Control/Distributed/Process/Consensus/Paxos.hs:312-321 | Two inputs on which the comment is false: one asks for too little, one for too much |
| `Intervals.DiffWithin` | consensus-paxos/src/Control/Distributed/Process/Consensus/Paxos.hs:312-321 | Nothing is asked for that was not advertised, on all ordered lists |
| `Sync.LookupRangesFinds` | consensus-paxos/src/Control/Distributed/Process/Consensus/Paxos.hs:253-258 | On ranges with gaps between them the lookup finds exactly the entries in some range, unchanged |
| `Sync.DiffSeparated` | consensus-paxos/src/Control/Distributed/Process/Consensus/Paxos.hs:312-321 | What is asked for has the gaps the lookup needs |
| `Sync.AdvertisedMembers` | consensus-paxos/src/Control/Distributed/Process/Consensus/Paxos.hs:225-232 | An acceptor advertises exactly the decrees it holds |
| `Sync.NotWantedMembers` | consensus-paxos/src/Control/Distributed/Process/Consensus/Paxos.hs:234-244 | The list subtracted from an advertisement is ordered and holds exactly the decrees held or trimmed |
| `Sync.SyncSpreads` | consensus/src/Control/Distributed/Process/Consensus.hs:161-182 | When a synchronisation completes in which everyone asked for all it lacked: each decree anyone held is held or trimmed by a majority, everyone still has its decrees, and every vote is one somebody had. Asking again for what is held does no harm here |
| `Sync.SyncRunKeeps` | consensus-paxos/src/Control/Distributed/Process/Consensus/Paxos.hs:225-267 | The invariant behind it, over every interleaving of advertisements, requests and answers |
| `Sync.SyncMissesExactly` | consensus-paxos/src/Control/Distributed/Process/Consensus/Paxos.hs:234-248 | In any run, every difference is taken on lists that make it ask for enough **if and only if** no decree advertised to an acceptor is neither known to it nor asked for |
| `Sync.OwnVotesSurvive` | consensus-paxos/src/Control/Distributed/Process/Consensus/Paxos.hs:234-267 | An acceptor's own votes survive if moreover nobody asks for what it holds |
| `GaplessSync.GaplessAsksEnough` | consensus-paxos/src/Control/Distributed/Process/Consensus/Paxos.hs:225-267 | A condition on the acceptors before the call: if each knows a first part of the decrees anyone holds, and nobody has trimmed one that another does not know, every run asks for enough |
| `GaplessSync.GaplessSpreads` | consensus/src/Control/Distributed/Process/Consensus.hs:161-182 | So every completed synchronisation of such a group, trimmed or not, leaves each decree anyone held with a majority |
| `GaplessSync.EnoughIsNeeded` | consensus-paxos/src/Control/Distributed/Process/Consensus/Paxos.hs:234-248 | Where one acceptor would miss something in what another advertises from the start, a run that misses it exists |
| `SyncLimits.SyncForgets` | consensus/src/Control/Distributed/Process/Consensus.hs:172-173 | A completed synchronisation of three acceptors, whatever their votes and ballots, after which the vote of the third on decree 2 is in every store: the others hold decrees 0 and 2, ask for 2 again, and overwrite it |
| `SyncLimits.SyncMisses` | consensus/src/Control/Distributed/Process/Consensus.hs:172-173 | A completed synchronisation after which a decree is not held by a majority: an acceptor with a decree in the middle of an interval never asks for what follows it |
| `SyncLimits.SyncInventsNothing` | consensus-paxos/src/Control/Distributed/Process/Consensus/Paxos.hs:250-267 | In every synchronisation every vote held is one somebody had at the start |
| `SyncLimits.SyncReachesByRun` | consensus-paxos/src/Control/Distributed/Process/Consensus/BasicPaxos.hs:297-312 | A state reached by chained exchanges is the last state of one run of single steps |
| `SyncLimits.Exchange` | consensus-paxos/src/Control/Distributed/Process/Consensus/Paxos.hs:225-267 | A run of one whole exchange: a advertises, b asks, b stores what it is given and reports |
| `SyncLimits.IdleSync` | consensus-paxos/src/Control/Distributed/Process/Consensus/BasicPaxos.hs:297-312 | Where nobody lacks what another has, a synchronisation that starts each acceptor once completes and changes nothing, for any number of acceptors |
| `RecoveryLimits.HalfExactly` | rfc/014-reconfiguration.md:94-100 | States of h old acceptors give back every chosen value of a group of n, after any clean run, **if and only if** 2h is at least n |
| `RecoveryLimits.HalfRecovers` | rfc/014-reconfiguration.md:94-98 | The highest vote in the states of at least half of the group is for the chosen value |
| `RecoveryLimits.FewerThanHalfLose` | rfc/014-reconfiguration.md:96-98 | With fewer than half there is a run and a choice of states that show nothing of the chosen value |
| `RecoveryLimits.StoredAboveChosen` | consensus-paxos/src/Control/Distributed/Process/Consensus/Paxos.hs:85-87 | A stored vote at or above a chosen ballot is for the chosen value |
| `RecoveryLimits.CopiesExactly` | rfc/014-reconfiguration.md:118-137 | Starting from h copies of a value and k older copies of another, with any ballots or with ballots kept by those that have the newer copy: every later proposal returns the newer value in every run **if and only if** fewer than a majority are without it and either ballots are kept or k is 0 |
| `RecoveryLimits.StaleCopyWins` | consensus-paxos/src/Control/Distributed/Process/Consensus/Paxos.hs:169-171 | Where no ballot was stored, one older copy of another value is enough for a later proposal to return it |
| `RecoveryLimits.TooFewCopies` | rfc/014-reconfiguration.md:102-104 | With a majority of acceptors without the newer copy a later proposal returns another value, ballots kept or not |
| `RecoveredGroup.RecoverThenPropose` | rfc/014-reconfiguration.md:94-105 | Recovery loses nothing: a value chosen in a clean run, found as the highest vote in the states of at least half of the group, and installed with its ballot where every majority meets it, is what every later proposal returns, whatever older copies are left elsewhere |
| `RecoveredGroup.InstallEverywhere` | rfc/014-reconfiguration.md:102-105 | The same without ballots, if every copy is that vote |
| `RecoveredGroup.SeedSyncPropose` | rfc/014-reconfiguration.md:94-105 | What the code does: a group seeded with at least half of the old states, whose copies of a decree agree, synchronised, returns the value the old group had chosen in every later proposal |
| `RecoveredGroup.SeedGaplessPropose` | rfc/014-reconfiguration.md:94-105 | The same for a gapless group, from any synchronisation that completed |
| `RecoveredGroup.FoundFits` | consensus-paxos/src/Control/Distributed/Process/Consensus/Paxos.hs:85-87 | Any vote found in the states is below the highest one or for the same value |
| `RecoveryLosses.OlderCopyWins` | rfc/014-reconfiguration.md:94-105 | When copies do not agree: for every n and every h from a majority to n - 1, a clean run in which h acceptors choose 1, all states at hand, a completed synchronisation, and a clean run that returns 2 |
| `RecoveryLosses.AskedAgainWins` | consensus/src/Control/Distributed/Process/Consensus.hs:172-173 | A clean run of three acceptors that chooses 10 for decree 2, a completed synchronisation of all three, and then every later proposal returns 20, and one can |
| `Recovery.KeptValueStays` | rfc/014-reconfiguration.md:118-137 | If acceptors that every majority meets hold a value at or above some ballot and keep a ballot as high, and all other votes for the decree are lower or for it too, every later proposal returns it in every run |
| `Recovery.RecoveredValueStays` | rfc/014-reconfiguration.md:118-137 | If all recovered copies of a decree agree and no majority is without one, every later proposal returns that value in every run, restarts, trims, interruptions and reused ballots included |
| `Recovery.SyncThenPropose` | consensus-paxos/tests/Test.hs:141-151 | Synchronise, asking for enough, then propose: a decree on which all copies agreed before keeps its value for every later proposal |
| `Recovery.StepKeepsValue` | consensus-paxos/src/Control/Distributed/Process/Consensus/BasicPaxos.hs:261-295 | Every step keeps it that nobody knows another value for the decree |
| `Query.QueryTellsChosen` | consensus-paxos/src/Control/Distributed/Process/Consensus/BasicPaxos.hs:314-330 | A query that begins when a value has been chosen, in a clean run, tells it, although the acceptors answer at different times and in any order and go on voting; trimmed decrees apart |
| `Query.AnswersExactly` | consensus-paxos/src/Control/Distributed/Process/Consensus/BasicPaxos.hs:314-330 | A decree is told **if and only if** it is at or above the one asked about and a majority has a vote for it, and what is told is the value of a vote with none above it |
| `Query.CollectSize` | consensus-paxos/src/Control/Distributed/Process/Consensus/BasicPaxos.hs:320-329 | The number of votes a query collects for a decree is the number of acceptors that have one |
| `Leases.LeaseExactly` | rfc/017-non-persisted-leases.md:27-40 | At no instant of any run with crashes do two replicas hold a lease **if and only if** a grant binds its acceptor and a restart silences it for at least the period the holder relies on (or the group is empty) |
| `Leases.InvIsExclusive` | rfc/003-replicated-log-leader-election.md:44-53 | Holders counted from submission share an acceptor, whose two grants are a period apart |
| `Leases.LeaseStepKeeps` | rfc/017-non-persisted-leases.md:27-35 | Waiting, submitting, granting and restarting keep every grant covered by its binding time, by silence, or by a later grant to the same replica |
| `Leases.ShortSilenceFails` | rfc/017-non-persisted-leases.md:37-40 | With a shorter silence a group of any size has a run with two holders |
| `Leases.ShortHoldFails` | rfc/003-replicated-log-leader-election.md:44-53 | With grants that bind for less than a period a group of any size has a run with two holders |
| `Leases.GrantsExactly` | rfc/003-replicated-log-leader-election.md:38-53 | In every run an acceptor can grant a request **if and only if** its silence since it last went live is over and the last lease it granted since then is over or belongs to the same replica, which may renew it |
| `Leases.KeeperHistory` | rfc/017-non-persisted-leases.md:27-40 | In every run what an acceptor knows is told by the steps since its last restart |
| `AckSets.Acks.constructor` | consensus-paxos/promela/main.pml:68-82 | A new set of acknowledgements is empty |
| `AckSets.Acks.Clear` | consensus-paxos/promela/main.pml:138-147 | Clearing the parallel arrays gives the empty map |
| `AckSets.Acks.AddAck` | consensus-paxos/promela/main.pml:156-176 | Adding to the parallel arrays in place is merging into the map from decrees to acknowledgements |
| `AckSets.FoldIsFirstHighest` | consensus-paxos/promela/main.pml:138-176 | After any messages a decree is filled exactly when one carried it, and holds the first message with the highest ballot among those |
| `AckSets.OrderExactly` | consensus-paxos/promela/main.pml:150-176 | The value stored for a decree is the same in every order of arrival **if and only if** the messages with the highest ballot agree on it |
| `AckSets.ModelAgreesExactly` | consensus-paxos/src/Control/Distributed/Process/Consensus/Paxos.hs:341-349 | The Promela scout chooses what the Haskell scout chooses in every order of arrival **if and only if** all reported votes have one value or all have one ballot: its promises carry the ballot of the request, not of the vote, so it takes the first report, where the code takes the first of the highest |
| `AckSets.ModelTakesFirst` | consensus-paxos/src/Control/Distributed/Process/Consensus/Paxos.hs:341-349 | The Promela scout always takes the first report |
| `AckSets.CodeTakesFirstTop` | consensus/src/Control/Distributed/Process/Quorum.hs:21-28 | Of the highest reports, the Haskell scout takes the value of the first to arrive: replies are collected in reverse and the last maximum of that list is taken |
| `AckSets.LastTopIsChoice` | consensus-paxos/src/Control/Distributed/Process/Consensus/Paxos.hs:91-97 | The choice from a list of votes is the value of the last of its highest ones, in list order |
| `ModelScout.ModelScoutExactly` | consensus-paxos/src/Control/Distributed/Process/Consensus/BasicPaxos.hs:129-189 | In every clean run of n acceptors a Promela scout, given the replies of a Haskell scout, would put forward the same value, **if and only if** n is at most 2, the size the Promela model is explored for |
| `ModelScout.ModelScoutDropsChosen` | consensus-paxos/src/Control/Distributed/Process/Consensus/BasicPaxos.hs:141-189 | For every n from 3, a clean run in which 20 has been returned and a scout hears replies on which the Promela scout would put forward 10 |
| `ModelScout.SmallScoutsAlike` | consensus-paxos/src/Control/Distributed/Process/Consensus/BasicPaxos.hs:129-189 | In a group of at most two all votes a scout hears of have one value, so both scouts choose it |
| `ModelScout.CodeValueIsSent` | consensus-paxos/src/Control/Distributed/Process/Consensus/BasicPaxos.hs:284-287 | The value compared is the one the proposer asks votes for next |
| `PidTable.Pids.constructor` | consensus-paxos/promela/main.pml:187-190 | A new table has no active pid |
| `PidTable.Pids.IsPidActive` | consensus-paxos/promela/main.pml:192-203 | The loop stops at the position of the pid, or at the end exactly when it is not active |
| `PidTable.Pids.GeneratePid` | consensus-paxos/promela/main.pml:205-223 | The pid made active is the first free one from the next pid on, found within one step more than there are active pids; afterwards exactly the pids active before and the new one are active |
| `PidTable.Pids.DisposePid` | consensus-paxos/promela/main.pml:233-246 | Exactly that pid goes, the last taking its place; an inactive pid changes nothing |
| `PidTable.Pigeonhole` | consensus-paxos/promela/main.pml:214-219 | A run of active pids is no longer than the table |
| `PidTable.TableStaysBelow` | consensus-paxos/promela/main.pml:205-246 | After any operations the table has no duplicates and its pids lie below the next pid |
| `PidTable.PidsCountUp` | consensus-paxos/promela/main.pml:205-246 | Over any history the k-th pid generated is k, so no pid is given out twice |
| `Mailbox.Channel.constructor` | consensus-paxos/promela/main.pml:92-92 | A new channel is empty |
| `Mailbox.Channel.Send` | consensus-paxos/promela/main.pml:46-55 | Sending appends to the shared channel |
| `Mailbox.Channel.Receive` | consensus-paxos/promela/main.pml:57-57 | Receiving takes the first message of the kind for the pid, if there is one, and leaves the rest in order |
| `Mailbox.Channel.CollectOnce` | consensus-paxos/promela/main.pml:301-324 | A pass takes and puts back message by message, never into a full channel, and ends with the order-preserving filter by active pid; the flag is raised exactly when something was dropped |
| `Mailbox.Channel.Collect` | consensus-paxos/promela/main.pml:297-324 | The collector makes at most two passes and leaves the filter of the channel |
| `Mailbox.ChannelIsMailboxes` | consensus-paxos/promela/main.pml:28-60 | Over every sequence of sends, receives and passes, what a process sees of the shared channel is a mailbox of its own under its own operations |
| `Mailbox.SendIsLocal` | consensus-paxos/promela/main.pml:28-55 | Sending changes the messages of one pid only |
| `Mailbox.ReceiveIsLocal` | consensus-paxos/promela/main.pml:28-57 | Receiving takes from the messages of one pid only |
| `Mailbox.CollectIsLocal` | consensus-paxos/promela/main.pml:301-324 | A pass changes no active pid's messages and leaves the others none |
| `Mailbox.KeptShrinks` | consensus-paxos/promela/main.pml:301-324 | A pass drops something exactly when some message is for an inactive pid, and a second pass with the same pids drops nothing |
| `AgreementCheck.CheckEntry` | consensus-paxos/promela/main.pml:272-281 | The inner loop passes exactly when the entry equals every later recorded one |
| `AgreementCheck.CheckRow` | consensus-paxos/promela/main.pml:268-286 | The middle loop passes exactly when the recorded values of the decree are pairwise equal |
| `AgreementCheck.CheckAgreement` | consensus-paxos/promela/main.pml:263-290 | The triangular scan passes exactly when the recorded values of every decree are pairwise equal |
| `AgreementCheck.Recorder.constructor` | consensus-paxos/promela/main.pml:256-261 | A new table has no values |
| `AgreementCheck.Recorder.Finish` | consensus-paxos/src/Control/Distributed/Process/Consensus/BasicPaxos.hs:397-402 | Recording a result in place and scanning passes exactly when the history with it is consistent |
| `AgreementCheck.Recorder.RowsAgreeExactly` | consensus-paxos/promela/main.pml:260-290 | The table agrees exactly when the history it records does |
| `AgreementCheck.FirstSeen.constructor` | consensus-paxos/tests/random.hs:94-94 | A new map has no values |
| `AgreementCheck.FirstSeen.Finish` | consensus-paxos/tests/random.hs:103-107 | The atomic look-up or insert passes exactly when the history with the result is consistent |
| `AgreementCheck.ScanAll` | consensus-paxos/promela/main.pml:260-290 | Over a whole history the table scan accepts exactly the consistent ones |
| `AgreementCheck.LookAll` | consensus-paxos/tests/random.hs:99-107 | Over a whole history the first-seen map accepts exactly the same ones |
| `AgreementCheck.ChecksNeverFail` | consensus-paxos/promela/main.pml:260-290 | Neither check fails on the results of a clean run of the Haskell rounds, whoever reports them and in whatever order |
| `M0Worker.RunsInOrder` | rpclite/Mero.hsc:61-72 | Over every interleaving, after the hand-over tasks are run in channel order, each once, and a box holds the result recorded for its task; which result that is, is `M0Worker.ResultsAreOwn` |
| `M0Worker.ResultsAreOwn` | rpclite/Mero.hsc:101-117 | Over every interleaving a box ends with a value **if and only if** its own task was run at some step and gave that value; no task is run twice, and they are run in channel order |
| `M0Worker.ChannelCarries` | rpclite/Mero.hsc:61-72 | The channel has carried what was written to it, each task and each stop token once, in order |
| `M0Worker.LosesAtMostOne` | rpclite/Mero.hsc:84-97 | Every task read is answered or in a worker's hands, except at most one per program, which was in the default worker's hands when it was killed |
| `M0Worker.FilledOnce` | rpclite/Mero.hsc:101-117 | A filled box keeps its answer and a worker only fills an empty one |
| `M0Worker.ReturnsExactly` | rpclite/Mero.hsc:70-72 | When its body is over, `withM0` can still return **if and only if** its stop token is still in the channel |
| `M0Worker.HandOverFirst` | rpclite/Mero.hsc:61-72 | From a state in which the hand-over has been made, with the stop token not lost to it, every `withM0` can return |
| `M0Worker.HandOverExactly` | rpclite/Mero.hsc:61-97 | Whatever happens from a state on, a `withM0` whose body is over can return, **if and only if** the hand-over has been made by then with no stop token lost to it |
| `M0Worker.NobodyAnswersBefore` | rpclite/Mero.hsc:84-97 | Until the first worker thread looks the default worker up, nobody answers a task |
| `M0Worker.StopCanBeSwallowed` | rpclite/Mero.hsc:61-91 | So from the start there is a run in which the default worker takes the stop token and `withM0` never returns |
| `M0Worker.DrainsToStop` | rpclite/Mero.hsc:65-69 | The worker's own steps run and answer every task ahead of the first stop token and then end it |
| `M0Worker.StepKeeps` | rpclite/Mero.hsc:61-97 | Each task read is in exactly one place: answered, held, running or lost; this survives every step |
| `Extractor.ExtractsRegions` | consensus-paxos/promela/commentExtractor.hs:22-34 | A file's fragments are those of its only list of disjoint increasing regions covering the opening lines; each `#line` number is the one-based number of the first line of its body |
| `Extractor.RegionsUnique` | consensus-paxos/promela/commentExtractor.hs:25-34 | Only one such list exists for a file |
| `Extractor.RegionsFromCover` | consensus-paxos/promela/commentExtractor.hs:25-34 | Cutting at the first opening and closing line each time gives such a list, from any line on |
| `Extractor.GoCounts` | consensus-paxos/promela/commentExtractor.hs:25-34 | The scan's own line count is its position in the file |
| `Extractor.NextOpen` | consensus-paxos/promela/commentExtractor.hs:26-27 | The prefix skipped holds no opening line and ends at one or at the end of the file |
| `Extractor.NextClose` | consensus-paxos/promela/commentExtractor.hs:27-28 | The body holds no closing line and ends at one or at the end of the file |
| `Extractor.SortIsStable` | consensus-paxos/promela/commentExtractor.hs:57-58 | The blocks are sorted by number, and those with one number keep their order |
| `Extractor.StableSortUnique` | consensus-paxos/promela/commentExtractor.hs:57-58 | No other arrangement is sorted and keeps that order, so any stable sort gives it |
| `Extractor.OutputIsStableOrder` | consensus-paxos/promela/commentExtractor.hs:52-58 | The output is the one arrangement by number of the fragments of all regions of all files in which those with one number stay in the order of the files given and of the lines in them |
| `Extractor.FilesHaveRegions` | consensus-paxos/promela/commentExtractor.hs:53-56 | Every list of files has its lists of regions, so the above is about all inputs |
| `Extractor.FragmentText` | consensus-paxos/promela/commentExtractor.hs:27-33 | A fragment has the number of its opening line and, after its `#line` line if asked for, the lines strictly between the opening and the closing line |
| `Extractor.RegionText` | consensus-paxos/promela/commentExtractor.hs:26-28 | Two line numbers are a region **if and only if**, in the text of the file, the first is an opening line and the second the next closing line or the end |
| `Extractor.AllBlocksConcat` | consensus-paxos/promela/commentExtractor.hs:53-58 | The fragments of two lists of files are those of the first followed by those of the second |
| `Extractor.AllBlocksOne` | consensus-paxos/promela/commentExtractor.hs:54-55 | One file gives the fragments of its regions |
| `Extractor.FlattenConcat` | consensus-paxos/promela/commentExtractor.hs:57-57 | The lines printed for two lists of fragments are those of the first followed by those of the second |
| `Extractor.SuppressErasesPragmas` | consensus-paxos/promela/commentExtractor.hs:30-32 | With `-x` the output is the same without its `#line` lines |
| `Extractor.ReadsNumber` | consensus-paxos/promela/commentExtractor.hs:39-43 | A decimal number after the first word of a line is the sort number, whatever follows it; without one, or with nothing after the word, it is 100 |
| `Extractor.ClosesExactly` | consensus-paxos/promela/commentExtractor.hs:27-27 | A line closes a fragment **if and only if** it is one of the two marks with spaces around it |
| `Extractor.OpensExactly` | consensus-paxos/promela/commentExtractor.hs:37-38 | A line opens a fragment **if and only if** its first word is the mark followed by the keyword, in any case, with nothing before it |

## Left out

- The message loops of acceptors, proposers, leases and workers as code that runs in place: they are steps of state machines, since what is proved is about their interleavings.
- Liveness, backoff delays and the length of timeouts: a timeout is a step that may happen at any time.
- The asynchronous LevelDB store of the replicated log: the store here is the synchronous one of the tests, which writes at once.
- The first decree of a restarted acceptor: it is an argument of the caller in the code, and here the one the acceptor had before.
- Duplicated packets: the transport does not duplicate, and the code relies on it.
- Acceptor lists with repeated members, and changes of the membership while proposals run.
- Synchronisation while proposals run: it starts from acceptors at rest, and later proposals start when it has completed.
- Query.QueryTellsChosen: nothing is claimed about decrees that are not chosen when the query begins.
- Sync.SyncSpreads: holds for runs that ask for enough; of the acceptors before the call `GaplessSync.GaplessAsksEnough` has a sufficient condition and `GaplessSync.EnoughIsNeeded` a necessary one, and what lies between depends on the order of the exchanges.
- Leases.LeaseExactly: the consensus round of a lease request is the set of acceptors that granted it; clocks do not drift.
- Extractor.SuppressErasesPragmas: upper case and spaces are those of ASCII (with the no-break space), and printing nothing, on which the original stops with an error, is the empty list of lines.
- M0Worker.RunsInOrder: a task is an opaque action with one result; tasks that send tasks themselves are not modelled.
- PidTable.Pids.GeneratePid: pids and lengths are natural numbers, not bytes; the table must have room, as the Promela array does.
- AgreementCheck.ChecksNeverFail: the runs of the Promela proposer itself, which may turn to another decree after a refusal, are not modelled.
- The `WITH_FAILURES` variant of the Promela model: packet loss is modelled directly instead.
- `rpclite`: copying a scatter/gather list into one buffer, counters of calls per type with their average and maximum, and the gate that refuses calls with an epoch below the highest seen.
- Resource graph, event processing, scheduler, event queue, confc and Spiel bindings, HA state, scripts and configuration.
