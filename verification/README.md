# Encointer pallets: a verified model

Encointer keeps, on chain, communities that meet at regular ceremonies, pay a nominal income to
whoever is attested there, and vote with the reputation earned. This project models the state
machines behind that in Dafny and proves what they keep over unbounded runs.

## Layout

| part | files |
|---|---|
| shared types, arithmetic, primes | `Primitives`, `Arithmetic`, `Primes`, `PrimeGaps` |
| ceremonies: registries, seats, lookups, locations, proofs | `Registry`, `Assignment`, `Hall`, `MeetupLocations`, `Ceremonies`, `CeremonyInvariants`, `CeremoniesPallet`, `RegistrationGuards`, `Claims`, `SeatPlan`, `Standing`, `ProofBacking` |
| meetup validation | `MeetupValidation`, `MeetupJudgement`, `MeetupRounds`, `MeetupSupport` |
| reputation commitments and democracy | `Governance`, `GovernanceInvariants`, `CommitmentsPallet`, `DemocracyPallet`, `VoteGuards`, `Ballots`, `TurnoutRule`, `FixedPointRule` |
| whole runs of the three pallets together | `Chain`, `Lifecycle`, `Deadlines`, `Payout`, `Turnout`, `Electorate`, `ExactCounts`, `ExactElectorate`, `FullTurnout`, `NoMinimum`, `BackedRuns`, `SignedLinks`, `Roster` |
| runs driven by the clock | `TimedRuns`, `IndexReach`, `VotingWindow` |
| reputation rings | `EvenSplit`, `Rings`, `RingPallet` |
| community currency | `Converter`, `Ledger`, `Payments`, `LedgerRounding` |
| ceremony rhythm | `Scheduler` |
| location index | `Buckets` |

`dafny verify dfyconfig.toml` checks the whole project.

## How it is modelled

- A pallet whose storage is rewritten step by step is a class; each method is proved against a
  function from storage to storage (`Ceremonies`, `Governance`, `Ledger`, `Scheduler`) or against a
  predicate of the new storage (`Buckets`, `RingPallet`). Everything stored under one community
  ceremony is grouped in one record, `Hall`.
- A dispatchable call is transactional: an error leaves the storage as it was. Phase-change hooks are
  not rolled back.
- A run (`Chain.IsRun`) starts from empty storage and takes any sequence of registrations, upgrades,
  unregistrations, endorsements, claims, purges, new and removed communities, purposes, commitments,
  proposals, votes, updates, clock ticks and phase changes. A claim comes with an arbitrary ballot:
  whatever the participants voted and attested. Of the environment a run assumes that time does not
  run backwards, that no group of a ceremony has more than 3 037 000 499 accounts (the square root of
  2^63, up to which the assignment computes without overflow) and that seat assignment draws its
  random numbers from the right range (`Chain.CallOk`). No rule may pass a proposal without any vote
  (`GovernanceInvariants.EmptyFails`): a positive minimum turnout sees to that, and so does the rule
  of the code, which divides by the root of the turnout. Bootstrappers for whom there are no seats
  are an outcome of their own; `Roster.SeatsNeverUnderflow` excludes it for lists no longer than the
  target size of a meetup, assuming that each community identifier keeps one list, of which the
  identifier itself only holds a checksum.
- A timed run (`TimedRuns.TimedRun`) also carries the scheduler: a phase changes where a timestamp
  is past the slot of the scheduler. Its clock is the one the timestamp hook computes
  (`TimedRuns.HookDrives`).
- Signatures, remaining endorsement tickets, whether currency was issued at all, failing issuances,
  failing enactments and inactive communities are inputs of the calls.

## Where the code does less than one might expect

Each of these is stated as an exact condition or shown on a concrete input.

- Swap-removal keeps a registry contiguous if and only if the account is a member or the registry is
  empty (`ParticipantRegistry.SwapRemoveKeepsContiguous`).
- The inverse assignment lists everyone if and only if a group is at most twice its prime
  (`Assignment.InverseExact`); `PrimeGaps.TwicePrime` shows that this holds for every group size
  admitted, so the lookups do agree.
- Meetups of a full ceremony keep separate locations if and only if no location was lost since
  assignment (`MeetupLocations.NoSharingExactly`).
- Attestations by excluded participants still count as received, although the comment in the source
  suggests they are dropped. The legit participants have enough attestations from each other if and
  only if the ballot with the attestations of the excluded erased has the same outcome
  (`MeetupSupport.LegitSupportedExactly`); `MeetupSupport.UnsupportedSample` is a ballot of ten where a
  legit participant is attested by no other. Repeated attestations count as often as they are listed
  (`MeetupSupport.OutgoingCountsRepeats`).
- A refund keeps proof-backed registrations within the linked attendances if and only if the caller
  registered with a proof or an attendance is to spare (`ProofBacking.UnregisterBackedExactly`); a
  bootstrapper's refund can free an attendance that still backs a registration elsewhere
  (`ProofBacking.RefundFreesBackedAttendance`). A purge keeps them backed if and only if it drops no
  more linked attendances than there are to spare, counting the registrations it drops
  (`ProofBacking.PurgeBackedExactly`); purging one ceremony can leave a registration elsewhere without
  its attendance (`ProofBacking.PurgeFreesRegistration`). The expiry purge never does, and runs
  without manual and inactivity purges and without such refunds stay backed
  (`BackedRuns.BackedInEveryState`).
- A vote goes through if and only if the proposal is neither superseded nor confirmed nor expired and
  the counts and the quorum, before and after counting, can be computed
  (`VoteGuards.VoteAcceptedExactly`). A vote that finds the proposal due to be closed is rolled back as
  a whole, so closing takes a call of its own (`VoteGuards.ClosingVoteFails`, with samples). Without a
  minimum turnout the quorum of no votes has no result, so every vote and every update of every
  proposal fails for good (`NoMinimum.NothingIsDecided`).
- Purging one community's ceremony erases the global count of that index, which then bounds the
  attendances there if and only if none is left (`Electorate.PurgeBreaksGlobalCount`). From its
  submission on, the turnout of a proposal stays within its electorate in every continuation of the
  run if and only if the roll at submission does (`FullTurnout.StaysWithinExactly`).
- The voting window is as large as it can be, but for chains younger than the reputation lifetime:
  an attendance may vote if and only if its ceremony is frozen at submission, no run of the clock can
  expire it within the lifetime of the proposal, and the chain is not too young
  (`VotingWindow.WindowExactly`; `VotingWindow.YoungWindowShort` is an attendance left out).
- The electorate is constant, nobody joining and nobody falling out, on timed runs without manual
  phase changes, purges and removals, for the lifetime of the proposal (`TimedRuns.ElectorateConstant`).
- With truncated square roots and a turnout within the electorate, a proposal passes without a strict
  majority if and only if everybody voted, exactly half of them aye, and their number is no perfect
  square (`FixedPointRule.PassesWithoutMajorityExactly`; `FixedPointRule.ExactlyHalfPasses` is one of
  two). Below full turnout it needs a strict majority even with both roots up to 2^28 ulps off
  (`FixedPointRule.RoundedRuleNeedsMajority`).
- With truncated decay the balances can exceed the total issuance, at every positive rate that leaves
  two thirds after some stretch and after twice that (`LedgerRounding.RoundingBreaksBacking`); at such
  rates every run is backed if and only if there is no demurrage at all
  (`LedgerRounding.RunsBackedExactly`). The excess is never more than the errors of the writes
  (`LedgerRounding.NearlyBacked`).
- Removing a location keeps the bucket index right if and only if the location is stored or the
  community has none in that bucket (`Buckets.Pallet.DoRemoveLocation`).
- Phase changes stay in step with genesis midnight if and only if the registering duration and the
  durations through the genesis phase agree modulo the cycle (`Scheduler.RhythmFromMidnight`). With an
  empty cycle the hook still advances the ceremony index once a block, up to the end of its type,
  while phase and timestamp stand still (`Scheduler.EmptyCycleDrifts`).
- Converting an amount to a balance and back is exact below 2^64 units if and only if the amount is
  representable (`Converter.RoundTrip`).

## Model

| member | source | states |
|---|---|---|
| `Chain.RunKeeps` | democracy/src/lib.rs:257-341 | In every reachable state of every run the invariants of ceremonies, commitments and democracy hold together, and every step is one of the allowed transitions. |
| `Chain.ApplyKeeps` | ceremonies/src/lib.rs:1983-2014 | Every call and every phase-change hook keeps all invariants of the three pallets. |
| `Payout.PaidAtMostOnce` | ceremonies/src/lib.rs:408-544 | Over every run, with any ballots, no account receives the nominal income twice for one community and ceremony index. |
| `Payout.ClaimPaysNewcomers` | ceremonies/src/lib.rs:1794-1831 | Whoever a claim pays is paid once in it, was not paid for that ceremony before, and is on record afterwards. |
| `Payout.PaidRecorded` | ceremonies/src/lib.rs:1670-1754 | After any number of calls each payment made has multiplicity one, and its ceremony is purged or still marks the paid meetup. |
| `Payout.RegistriesInEveryState` | ceremonies/src/lib.rs:1214-1310 | In every reachable state the four registries are contiguous and disjoint, assigned counts stay within registered ones, and an account is listed for a meetup, once, exactly if it is looked up to it. |
| `Payout.SeatsFrozen` | ceremonies/src/lib.rs:1407-1461 | Once registration is over, registries, counts and parameters of a ceremony never change, with or without meetups, until it is purged, and a purged ceremony stays vacant. |
| `Turnout.TurnoutCountsOnce` | democracy/src/lib.rs:404-445 | Over every run the turnout of a proposal equals the number of distinct attendances ever counted for it: none counts twice, even after its commitment was purged. |
| `Turnout.VoteEffect` | democracy/src/lib.rs:303-341 | A vote raises the turnout by exactly the attendances it commits, each attended, eligible and not committed before; every other call leaves turnout alone. |
| `Turnout.PurgedTogether` | reputation-commitments/src/lib.rs:209-228 | A commitment disappears only together with the attendance record it was made from. |
| `Turnout.SpentStays` | reputation-commitments/src/lib.rs:103-154 | An attendance of a frozen ceremony that is spent for a purpose, or gone, stays so through every call. |
| `Turnout.CountStaysExact` | democracy/src/lib.rs:316-331 | The attendances a call adds are disjoint from all counted before, and the count stays exact. |
| `Electorate.TurnoutWithinElectorate` | democracy/src/lib.rs:521-544 | In every reachable state ayes <= turnout <= electorate for every community proposal, and for a global one whose roll was covered at submission; the electorate is the one counted in the state in which the proposal was submitted. |
| `Electorate.TurnoutWithinRoll` | democracy/src/lib.rs:404-445 | For every proposal, community or global, the turnout never exceeds the number of attendances on the roll at submission. |
| `Electorate.PurgeBreaksGlobalCount` | ceremonies/src/lib.rs:1382 | After the purge of one community ceremony the global count of its index bounds the attendances there if and only if no other community has any. |
| `Electorate.OnlyTheRollVotes` | democracy/src/lib.rs:372-384 | The electorate stays the one counted at submission, and everybody who ever votes on the proposal, or still can, was on the roll of verified attendances then. |
| `ExactElectorate.ElectorateIsRoll` | democracy/src/lib.rs:521-544 | Over every run the electorate of a community proposal is exactly the number of verified attendances on its roll at submission. |
| `ExactElectorate.GlobalElectorateIsRoll` | democracy/src/lib.rs:546-551 | In runs without manual and inactivity purges the same holds of global proposals. |
| `ExactCounts.CountsInEveryState` | ceremonies/src/lib.rs:1801-1820 | In every state of every run the reputation count of a ceremony is the number of accounts verified there, all of whom were paid there. |
| `ExactCounts.ClaimEffect` | ceremonies/src/lib.rs:1794-1831 | A claim raises the count of its ceremony and the global count by the number of accounts it pays, who become verified there and were not before. |
| `VotingWindow.WindowExactly` | democracy/src/lib.rs:361-384 | An attendance may vote if and only if its ceremony is frozen at submission, no run of the timestamp hook expires it within the lifetime of the proposal, and the chain is not too young. |
| `VotingWindow.RollExactly` | democracy/src/lib.rs:361-384 | The roll consists of exactly the standing attendances of the electors at such ceremonies. |
| `VotingWindow.YoungWindowShort` | democracy/src/lib.rs:372-384 | A concrete young chain in which an attendance that cannot expire may not vote. |
| `IndexReach.ReachedExactly` | scheduler/src/lib.rs:199-281 | Within a span of time some run of the hook advances the ceremony index by k if and only if k is zero or the span is longer than k - 1 cycles. |
| `TimedRuns.HookDrives` | scheduler/src/lib.rs:261-281 | In every state of a timed run the scheduler is where the timestamp hook has moved it, up to the phase change due in the current block. |
| `TimedRuns.BlockIsHook` | scheduler/src/lib.rs:261-281 | Setting the time, followed by a phase change if the slot has passed, leads exactly to the state the hook computes. |
| `TimedRuns.IndexPace` | scheduler/src/lib.rs:199-281 | Without manual phase changes, the ceremony index is more than k ahead only after more than k whole cycles. |
| `TimedRuns.LifetimeSpares` | democracy/src/lib.rs:361-384 | Until the lifetime of a proposal is over, no phase change of a timed run expires a ceremony whose attendances may vote on it. |
| `TimedRuns.ElectorateConstant` | democracy/src/lib.rs:366-384 | On a timed run without manual phase changes, purges and removals, exactly the roll of the submission state can vote on a proposal, from its submission to the end of its lifetime. |
| `FullTurnout.StaysWithinExactly` | democracy/src/lib.rs:521-551 | From the submission of any proposal on, its turnout stays within its electorate in every continuation of the run if and only if the roll at submission is no larger, provided the quorums on the way can be computed. |
| `FullTurnout.OneMoreVote` | democracy/src/lib.rs:303-341 | In the block of submission everybody on the roll who has not voted can: the vote counts once, spends that attendance only and leaves the proposal open. |
| `NoMinimum.NothingIsDecided` | democracy/src/lib.rs:575-587 | With a minimum turnout of zero and a rule without result for no votes, every proposal of every run stays ongoing without a vote. |
| `Electorate.RollWithinCounts` | ceremonies/src/lib.rs:1801-1820 | The verified attendances of a range of ceremonies never exceed the sum of their reputation counts. |
| `Electorate.ApprovedByMajority` | democracy/src/lib.rs:575-587 | Under a rule at least as strict as the exact adaptive quorum, an approved or enacted community proposal has a strict majority of its turnout. |
| `Electorate.ApprovedByHalf` | democracy/src/lib.rs:553-587 | Under the rule as computed on fixed-point bits, it has at least half of its turnout. |
| `Electorate.ApprovedBelowElectorate` | democracy/src/lib.rs:553-587 | Under the rule as computed, with roots up to 2^28 ulps off, an approved or enacted community proposal has a strict majority of its turnout unless the whole electorate voted. |
| `Electorate.ApprovedExactly` | democracy/src/lib.rs:553-587 | With truncated roots it has a strict majority, or exactly half of a full turnout that is no perfect square. |
| `FixedPointRule.RoundedRuleNeedsHalf` | democracy/src/lib.rs:553-573 | With all products and quotients truncated and a root of the turnout less than 2^28 ulps off, approval needs at least half of the votes. |
| `FixedPointRule.RoundedRuleNeedsMajority` | democracy/src/lib.rs:553-573 | With a turnout below the electorate and both roots up to 2^28 ulps off, approval needs a strict majority. |
| `FixedPointRule.HalfPassesExactly` | democracy/src/lib.rs:553-573 | At full turnout and for any root not above the exact one, exactly half of the votes pass if and only if the root is below it. |
| `FixedPointRule.PassesWithoutMajorityExactly` | democracy/src/lib.rs:553-573 | With truncated roots and the turnout within the electorate, a proposal passes without a strict majority if and only if all voted, half of them aye, and their number is no perfect square. |
| `FixedPointRule.ExactlyHalfPasses` | democracy/src/lib.rs:553-573 | With electorate and turnout two and truncated roots, one aye passes. |
| `Lifecycle.ApprovedAfterConfirmation` | democracy/src/lib.rs:451-519 | A proposal that becomes approved passed in every state of a stretch longer than the confirmation period which began within its lifetime. |
| `Lifecycle.StatesMatchTallies` | democracy/src/lib.rs:575-587 | After every completed call an ongoing proposal does not pass, a confirming one passes and began within its lifetime, an approved or enacted one passes. |
| `Lifecycle.QueuedOnce` | democracy/src/lib.rs:478-494 | A queued id is approved and sits exactly once, under its own action identifier and no other. |
| `Lifecycle.EnactedOnce` | democracy/src/lib.rs:588-671 | A proposal enters Enacted at most once in a run, and only from Approved. |
| `Lifecycle.TerminalForever` | primitives/src/democracy.rs:220-228 | Rejected, superseded and enacted proposals never change again, nor do their tallies. |
| `Lifecycle.LaterApprovalStartedLater` | democracy/src/lib.rs:457-467 | Of two approved proposals with the same superseding action, the later approved one was submitted no earlier than the approval of the other. |
| `Deadlines.UpdateDecides` | democracy/src/lib.rs:451-519 | An update closes a superseded proposal as such; of any other it makes, by tally and deadline: confirming within the lifetime, approved after the confirmation period, ongoing again if it no longer passes, rejected beyond the lifetime unless it passes and confirms. |
| `Deadlines.UpdateOnly` | democracy/src/lib.rs:478-494 | Nothing else changes but, on approval, the approval record and the queue of the kind, if it has room. |
| `Deadlines.RejectedAfterDeadline` | democracy/src/lib.rs:498-501 | Over every run a proposal is rejected only after its lifetime is over. |
| `Deadlines.SupersededByLater` | democracy/src/lib.rs:457-467 | Over every run a superseded proposal is of a superseding kind and names one of the same kind that was approved after it was submitted. |
| `Deadlines.CallMoves` | democracy/src/lib.rs:451-519 | A call changes the state of a proposal only by an update or a vote, by supersession or by its tally and deadline, or by enactment of an approved one. |
| `Deadlines.ApprovalIsEnacted` | democracy/src/lib.rs:656-671 | A proposal approved while its queue has room stays approved until the next assigning phase begins, and is then enacted exactly if its action succeeds. |
| `Deadlines.PassesExactly` | democracy/src/lib.rs:575-587 | A tally passes exactly if it reaches the minimum turnout in thousandths of the electorate and the rule approves it. |
| `Deadlines.ApprovedHasTurnout` | democracy/src/lib.rs:575-587 | Over every run an approved or enacted proposal reached the minimum turnout. |
| `GovernanceInvariants.UpdateKeeps` | democracy/src/lib.rs:451-519 | A state update restores agreement between state, tally, queue and approval record, and makes an allowed transition. |
| `VoteGuards.UpdateIdleExactly` | democracy/src/lib.rs:451-519 | An update leaves a proposal open, and then changes nothing at all, if and only if it is neither superseded nor confirmed nor expired and its quorum can be computed. |
| `VoteGuards.QuorumKnownExactly` | democracy/src/lib.rs:575-587 | The quorum of an open proposal can be computed unless there is no minimum turnout, nobody has voted and the rule has no result for no votes. |
| `VoteGuards.VoteAcceptedExactly` | democracy/src/lib.rs:303-341 | A vote goes through if and only if the proposal stays open, the cycle length is known where attendances are offered, the counts fit and the quorum can be computed before and after counting. |
| `VoteGuards.ClosingVoteFails` | democracy/src/lib.rs:312-334 | A vote on a superseded, confirmed or expired proposal fails whatever is offered, while an update closes the proposal unless its quorum cannot be computed. |
| `VoteGuards.ExpiredSample` | democracy/src/lib.rs:505-508 | A concrete expired proposal: the vote fails and an update rejects it. |
| `VoteGuards.ConfirmedSample` | democracy/src/lib.rs:470-499 | A concrete confirmed proposal: the vote fails and an update approves it. |
| `Ballots.BallotCounts` | democracy/src/lib.rs:303-341 | A vote that goes through counts exactly the offered attendances of its sender that can vote and are not committed yet; each raises the turnout by one, and on an aye the ayes as well. |
| `Ballots.SubmitExactly` | democracy/src/lib.rs:257-299 | A proposal goes through exactly if none of its kind waits for enactment, the cycle length is known, and an id and a purpose are free; only the new proposal is added. |
| `Ballots.CommitExactly` | reputation-commitments/src/lib.rs:103-143 | A commitment goes through exactly for a registered purpose, an attendance on record and a key not committed yet. |
| `Ballots.IdentifiersTell` | primitives/src/democracy.rs:133-198 | Actions share an identifier exactly if they are of the same kind and community; only settings supersede each other. |
| `GovernanceInvariants.VoteKeeps` | democracy/src/lib.rs:303-341 | A vote keeps all democracy invariants. |
| `GovernanceInvariants.SubmitKeeps` | democracy/src/lib.rs:257-299 | Submission keeps all democracy invariants. |
| `GovernanceInvariants.EnactKeeps` | democracy/src/lib.rs:656-671 | Emptying the enactment queue keeps all invariants whichever actions fail, and enacts only approved proposals. |
| `DemocracyPallet.Pallet.SubmitProposal` | democracy/src/lib.rs:257-299 | Ends with the storage and the error the specification gives; a failing call changes nothing. |
| `DemocracyPallet.Pallet.GetElectorate` | democracy/src/lib.rs:521-551 | The loop over voting indices returns the summed reputation counts, or the error of the cycle computation. |
| `DemocracyPallet.Pallet.ValidateAndCommitReputations` | democracy/src/lib.rs:404-445 | Commits the eligible offered attendances in order, skips the others, and returns how many were committed. |
| `DemocracyPallet.Pallet.DoUpdateProposalState` | democracy/src/lib.rs:451-519 | Moves proposal, queue and approval record as specified and reports whether the proposal was approved. |
| `DemocracyPallet.Pallet.Vote` | democracy/src/lib.rs:303-341 | Ends with the storage of the specification; any failure on the way restores commitments, tallies, proposals and queue. |
| `DemocracyPallet.Pallet.OnAssigning` | democracy/src/lib.rs:656-671 | Going through the queue in any order enacts exactly the queued proposals whose action succeeds, and empties the queue. |
| `CommitmentsPallet.Pallet.DoRegisterPurpose` | reputation-commitments/src/lib.rs:92-101 | The purpose handed out is new, is the only one added, and nothing is committed to it yet; ids stay consecutive. |
| `CommitmentsPallet.Pallet.DoCommitReputation` | reputation-commitments/src/lib.rs:103-143 | An attendance is spent once per purpose: after a success the same commitment fails with every hash, and all other commitments succeed or fail as before. |
| `CommitmentsPallet.Pallet.PurgeRegistry` | reputation-commitments/src/lib.rs:145-153 | The loop drops exactly the commitments of listed communities at one ceremony index. |
| `TurnoutRule.ThresholdIsRule` | democracy/src/lib.rs:553-573 | With exact square roots the coded threshold is equivalent to (t - a)^2 * e < a^2 * t. |
| `TurnoutRule.RuleMonotone` | democracy/src/lib.rs:553-573 | More ayes or a smaller electorate never turn an approval into a refusal. |
| `TurnoutRule.RuleNeedsMajority` | democracy/src/lib.rs:553-573 | With turnout within the electorate, approval needs a strict majority. |
| `TurnoutRule.FullTurnoutIsMajority` | democracy/src/lib.rs:553-573 | At full turnout the rule is exactly the simple majority. |
| `ParticipantRegistry.SwapRemoveKeepsContiguous` | ceremonies/src/storage_helper.rs:31-43 | Swap-removal keeps positions 1..count and both directions inverse if and only if the account is a member or the registry is empty; it removes exactly that member and moves at most the last. |
| `ParticipantRegistry.AppendKeepsContiguous` | ceremonies/src/lib.rs:1222-1227 | Appending keeps the registry contiguous if and only if the account is new. |
| `ParticipantRegistry.AppendThenRemove` | ceremonies/src/storage_helper.rs:31-43 | Registering and unregistering an account leaves no trace. |
| `ParticipantRegistry.CountIsMembers` | ceremonies/src/storage_helper.rs:31-43 | The count of a contiguous registry is the number of its accounts. |
| `ParticipantRegistry.Storage.Remove` | ceremonies/src/storage_helper.rs:31-43 | The ordered inserts and removes on index, registry and count compute swap-removal. |
| `ParticipantRegistry.Storage.Push` | ceremonies/src/lib.rs:1222-1227 | Takes the next position, or fails at the end of u64. |
| `CeremonyInvariants.RegisterParticipantKeeps` | ceremonies/src/lib.rs:114-190 | Registration keeps registries disjoint and contiguous, and touches only ceremonies still open. |
| `CeremonyInvariants.UpgradeKeeps` | ceremonies/src/lib.rs:194-226 | An upgrade to reputable keeps the ceremony invariants. |
| `CeremonyInvariants.UnregisterKeeps` | ceremonies/src/lib.rs:230-307 | Unregistering, with or without refund, keeps the ceremony invariants. |
| `CeremonyInvariants.EndorseKeeps` | ceremonies/src/lib.rs:363-404 | A late endorsement that moves a newbie between registries keeps the ceremony invariants. |
| `CeremonyInvariants.ClaimKeeps` | ceremonies/src/lib.rs:408-544 | A claim keeps verified attendances within the reputation count and never reopens a paid meetup. |
| `CeremonyInvariants.AssignKeeps` | ceremonies/src/lib.rs:1576-1594 | Assigning seats to all communities keeps the ceremony invariants, whatever bootstrappers are registered. |
| `RegistrationGuards.RegisterParticipantExactly` | ceremonies/src/lib.rs:114-190 | A registration succeeds exactly outside the assigning phase, in a known community, for somebody not registered yet, with a good proof or none, and with room in the registry; a good proof is the sender's, signed by the attendee, recent, verified, not used for this ceremony, and no bootstrapper's for somebody else. The participant joins one registry and the proof is used up. |
| `RegistrationGuards.UpgradeExactly` | ceremonies/src/lib.rs:194-226 | An upgrade succeeds exactly for a newbie in the registering phase with a good proof and room; the newbie moves and the proof is used up. |
| `RegistrationGuards.UnregisterExactly` | ceremonies/src/lib.rs:230-304 | Unregistering succeeds exactly while registering, for somebody registered, with a good refund where one is named and for reputables always; only a refund changes reputations. |
| `RegistrationGuards.EndorseExactly` | ceremonies/src/lib.rs:363-404 | An endorsement succeeds exactly with a ticket, for somebody not endorsed within the lifetime; a newbie registered already moves to the endorsed. |
| `RegistrationGuards.RegisterJoins` | ceremonies/src/lib.rs:1214-1310 | A registration succeeds exactly if the registry the account belongs to has room, and changes nothing but that registry and, for endorsees, the latest endorsement. |
| `RegistrationGuards.LatestEndorsement` | ceremonies/src/lib.rs:1948-1960 | The search finds an endorsement exactly if one stands within the reputation lifetime, and the latest. |
| `SignedLinks.LinkedWasSigned` | ceremonies/src/lib.rs:158-175 | Over every run, whoever's attendance is linked to a ceremony has signed the proof of the participant registered with it. |
| `SignedLinks.LinkNeedsSignature` | ceremonies/src/lib.rs:158-175 | The only calls that link an attendance carry the signature of the attendee. |
| `Claims.ClaimExactly` | ceremonies/src/lib.rs:408-544 | A claim goes through exactly if its meetup is open and the verdict settles it; it marks that meetup with the outcome and pays exactly the legit participants, but for failing issuances. |
| `Standing.ExpiryExactly` | ceremonies/src/lib.rs:1983-2014 | Entering the registering phase drops exactly the ceremonies of listed communities one reputation lifetime older than the one just over, with their commitments and global count. |
| `Standing.InactiveExactly` | ceremonies/src/lib.rs:1560-1574 | An inactive community is purged with exactly its ceremonies of the last reputation lifetime. |
| `ProofBacking.UnregisterBackedExactly` | ceremonies/src/lib.rs:255-304 | A refund keeps the proof-backed registrations of a ceremony within its linked attendances if and only if the caller registered with a proof, or an attendance is to spare. |
| `ProofBacking.RegistrationKeepsBacked` | ceremonies/src/lib.rs:114-190 | Every registration keeps them so. |
| `ProofBacking.UpgradeKeepsBacked` | ceremonies/src/lib.rs:194-226 | Every upgrade keeps them so. |
| `ProofBacking.EndorseKeepsBacked` | ceremonies/src/lib.rs:363-404 | An endorsement changes neither. |
| `ProofBacking.RefundFreesBackedAttendance` | ceremonies/src/lib.rs:255-304 | A concrete refund by a bootstrapper after which one attendance backs two reputable registrations. |
| `ProofBacking.PurgeBackedExactly` | ceremonies/src/lib.rs:1354-1403 | A purge of any ceremonies keeps the registrations of a ceremony backed if and only if it drops no more linked attendances than there are to spare, counting the registrations it drops. |
| `ProofBacking.PurgeFreesRegistration` | ceremonies/src/lib.rs:656-672 | A concrete purge of one ceremony that drops the attendance behind a registration in another. |
| `BackedRuns.ExpiryKeepsBacked` | ceremonies/src/lib.rs:1983-2014 | The expiry purge on entering the registering phase keeps every registration backed. |
| `BackedRuns.PayeeUnverified` | ceremonies/src/lib.rs:1794-1831 | Nobody a claim pays holds a verified attendance of that ceremony before, so no link is overwritten. |
| `BackedRuns.BackedInEveryState` | ceremonies/src/lib.rs:114-304 | In every state of every run without manual and inactivity purges and without refunds to callers who hold no proof-backed registration, the proof-backed registrations of the coming ceremony are within the attendances linked to it. |
| `CeremoniesPallet.Pallet.RegisterParticipant` | ceremonies/src/lib.rs:114-190 | Ends with the specified storage or error; a failing registration restores the linked reputation. |
| `CeremoniesPallet.Pallet.UpgradeRegistration` | ceremonies/src/lib.rs:194-226 | Removes the newbie and registers it as reputable, or changes nothing. |
| `CeremoniesPallet.Pallet.UnregisterParticipant` | ceremonies/src/lib.rs:230-307 | Refunds linked reputation where due and removes the participant, or changes nothing. |
| `CeremoniesPallet.Pallet.EndorseNewcomer` | ceremonies/src/lib.rs:363-404 | Records the endorsement and re-registers a waiting newbie as endorsee, or changes nothing. |
| `CeremoniesPallet.Pallet.Register` | ceremonies/src/lib.rs:1214-1258 | Chooses the registry by bootstrapper, reputation and endorsement, and consumes the endorsement used. |
| `CeremoniesPallet.Pallet.RemoveParticipantFromRegistry` | ceremonies/src/lib.rs:1261-1310 | Swap-removes from the registry of the participant, in the registering phase only. |
| `CeremoniesPallet.Pallet.IsEndorsed` | ceremonies/src/lib.rs:1948-1960 | The search returns the latest endorsed index within the reputation lifetime. |
| `CeremoniesPallet.Pallet.IssueRewards` | ceremonies/src/lib.rs:1794-1831 | The loop rewards exactly the listed participants whose issuance succeeds, adds them to both counts, and marks the meetup as issued. |
| `CeremoniesPallet.Pallet.ClaimRewards` | ceremonies/src/lib.rs:408-544 | Ends with the specified storage or error for early and late claims, own or named meetups; a failing claim changes nothing. |
| `CeremoniesPallet.Pallet.PurgeCommunityCeremonyInternal` | ceremonies/src/lib.rs:1354-1397 | Nothing is left of the ceremony, every other ceremony stays, and of the global counts only that of its index is lost. |
| `CeremoniesPallet.Pallet.PurgeRegistry` | ceremonies/src/lib.rs:1399-1405 | The loop drops one ceremony index for all listed communities. |
| `CeremoniesPallet.Pallet.PurgeCommunity` | ceremonies/src/lib.rs:1560-1574 | The loop drops the ceremonies of the last lifetime cycles and the community itself. |
| `CeremoniesPallet.Pallet.PurgeInactives` | ceremonies/src/lib.rs:1993-1995 | The loop purges the inactive communities one after the other. |
| `CeremoniesPallet.Pallet.GenerateAllMeetupAssignmentParams` | ceremonies/src/lib.rs:1576-1594 | The loop assigns seats to every community of the list and to no other ceremony. |
| `Hall.ComputeAssignmentAllowance` | ceremonies/src/lib.rs:1478-1534 | Seats go to bootstrappers, reputables, endorsees and newbies in this order, within the registered numbers, the seats and the newbie cap; a group is cut short only by those limits. Fails exactly without locations, on overflow, with too few seats for the bootstrappers, or with a zero divider. |
| `Hall.SeatsSuffice` | ceremonies/src/lib.rs:1504-1511 | The unchecked subtraction cannot underflow with at most as many bootstrappers as the target size. |
| `SeatPlan.MostMeetups` | ceremonies/src/lib.rs:1478-1500 | Seats are planned for the largest number of meetups that locations and primes allow. |
| `SeatPlan.AllowanceIsBest` | ceremonies/src/lib.rs:1478-1534 | The allowance is the best by priority among all that register everybody counted, fit into meetups that can be held and have enough others for each newbie. |
| `SeatPlan.SeatsAssigned` | ceremonies/src/lib.rs:1407-1461 | Seats are assigned exactly if the allowance can be computed and enough people come, to that allowance, at the fewest meetups that seat it, with the largest prime within each group as modulus. |
| `Roster.SeatsNeverUnderflow` | ceremonies/src/lib.rs:1504-1511 | Where each community identifier keeps one list of bootstrappers, in every reachable state no more of them are registered than the list has, so with lists within the target size seats never run out for them. |
| `Hall.MeetupsHaveLocations` | ceremonies/src/lib.rs:1407-1424 | The number of meetups never exceeds the number of locations, and is positive when anybody is assigned. |
| `Hall.AssignMeetups` | ceremonies/src/lib.rs:1407-1461 | Computes counts, parameters and the number of meetups as specified, or leaves the ceremony unassigned. |
| `Hall.GetMeetupParticipants` | ceremonies/src/lib.rs:1670-1754 | The three loops collect the specified list of participants of a meetup. |
| `Hall.LookupRoundTrip` | ceremonies/src/lib.rs:1615-1754 | An account is in the list of a meetup exactly once if and only if its meetup lookup returns that meetup. |
| `Hall.MeetupsDisjoint` | ceremonies/src/lib.rs:1670-1754 | Nobody is listed for two meetups. |
| `Assignment.InverseExact` | ceremonies/assignment/src/lib.rs:93-133 | The inverse lists, without duplicates, exactly the participants the assignment sends to a meetup, for all meetups, if and only if the group is at most twice the prime. |
| `Assignment.SeatsFromSound` | ceremonies/assignment/src/lib.rs:93-133 | Whoever the inverse lists is assigned to that meetup, for groups of every size. |
| `Assignment.AssignmentFnInverse` | ceremonies/assignment/src/lib.rs:93-133 | The loop computes the inverse enumeration. |
| `Assignment.CoreIsBalanced` | ceremonies/assignment/src/lib.rs:20-31 | Over a full residue system meetup sizes differ by at most one. |
| `Assignment.ModInvInverts` | ceremonies/assignment/src/math.rs:127-140 | The coded extended Euclid returns the inverse modulo a prime, in (0, m). |
| `Assignment.CheckedModInv` | ceremonies/assignment/src/math.rs:127-140 | Modulo a prime no checked i64 step overflows, and the loop returns the inverse. |
| `PrimeGaps.TwicePrime` | ceremonies/assignment/src/math.rs:86-104 | For every group size up to 3 037 000 499 the prime found is at least half of it. |
| `Primes.IsPrime` | ceremonies/assignment/src/math.rs:41-68 | Trial division by 6k - 1 and 6k + 1 decides primality for all u64. |
| `Primes.FindPrimeBelow` | ceremonies/assignment/src/math.rs:86-104 | The search returns the largest prime not above the bound, and 2 below 2. |
| `Primes.LargestPrimeIsLargest` | ceremonies/assignment/src/math.rs:86-104 | The specified value is prime, within the bound, and no larger prime is. |
| `MeetupLocations.GcdIsGreatest` | ceremonies/assignment/src/math.rs:70-84 | The subtractive gcd divides both numbers and is divided by every common divisor. |
| `MeetupLocations.FindRandomCoprimeBelow` | ceremonies/assignment/src/math.rs:106-125 | For any random order the number found is below the bound and coprime to it. |
| `MeetupLocations.GenerateLocationAssignmentParams` | ceremonies/src/lib.rs:1463-1476 | The parameters drawn have the number of locations as modulus and a coprime multiplier. |
| `MeetupLocations.OwnLocation` | ceremonies/assignment/src/lib.rs:161-182 | With no location lost since assignment, two meetups never share one, and every index is in range. |
| `MeetupLocations.NoSharingExactly` | ceremonies/assignment/src/lib.rs:161-182 | A full ceremony keeps its meetups apart if and only if there are at least as many locations as at assignment. |
| `MeetupLocations.MeetupsApart` | ceremonies/src/lib.rs:1756-1764 | The meetups of an assigned ceremony all take place at different locations. |
| `MeetupValidation.ExcludeByAttestations` | ceremonies/meetup-validation/src/lib.rs:174-246 | As many rounds as participants always reach the stable group; an index out of range is the only error. |
| `MeetupValidation.CoreIsStable` | ceremonies/meetup-validation/src/lib.rs:171-246 | Whoever is left lists enough attestations within the group and receives enough from those assigned to the meetup, measured by the size of the group left. |
| `MeetupRounds.PeelsInRounds` | ceremonies/meetup-validation/src/lib.rs:174-246 | A stable group is left alone; otherwise a round drops exactly those with the fewest attestations, who are below the threshold, and validation goes on with the others. |
| `MeetupRounds.ThresholdTolerates` | ceremonies/src/lib.rs:451-452 | Up to five people no attestation may be missing, in larger groups one. |
| `MeetupSupport.LegitSupportedExactly` | ceremonies/meetup-validation/src/lib.rs:274-304 | The legit participants have enough attestations from each other if and only if the ballot with the attestations of the excluded erased has the same outcome. |
| `MeetupSupport.SupportedWithoutOutsiders` | ceremonies/meetup-validation/src/lib.rs:274-304 | They do whenever nobody excluded attests anybody legit. |
| `MeetupSupport.UnsupportedSample` | ceremonies/meetup-validation/src/lib.rs:289-304 | A ballot of ten without repeated attestations in which a legit participant is attested by no other legit one. |
| `MeetupSupport.OutgoingCountsRepeats` | ceremonies/meetup-validation/src/lib.rs:306-314 | The outgoing count is the number of different attestees if and only if none is listed twice. |
| `MeetupValidation.PeelSplits` | ceremonies/meetup-validation/src/lib.rs:174-246 | Nobody is lost and nobody is excluded twice. |
| `MeetupValidation.FindMajorityVote` | ceremonies/meetup-validation/src/lib.rs:248-272 | The loop computes the leading vote, or the error for an empty or undependable ballot. |
| `MeetupValidation.MajorityLeads` | ceremonies/meetup-validation/src/lib.rs:248-272 | The confirmed number has at least three votes, none has more, and the vote is unanimous exactly if all cast it. |
| `MeetupValidation.TieGoesToNewest` | ceremonies/meetup-validation/src/lib.rs:248-272 | Of several leading numbers the one first voted for last is confirmed. |
| `MeetupJudgement.GetParticipantJudgements` | ceremonies/meetup-validation/src/lib.rs:37-79 | The three passes compute the specified judgement. |
| `MeetupJudgement.JudgementSound` | ceremonies/meetup-validation/src/lib.rs:37-79 | Every participant is either legit or excluded, exactly once; the legit ones all cast the leading vote and form a stable group. |
| `MeetupJudgement.EarlyIsComplete` | ceremonies/meetup-validation/src/lib.rs:81-136 | Rewards are early only if everybody who voted confirmed the true size of the group, more than half of those assigned, and attested exactly the others; then only non-voters are excluded. |
| `MeetupRounds.EarlyExactly` | ceremonies/meetup-validation/src/lib.rs:81-136 | Rewards are early exactly if everybody who voted confirmed the true number of the group, more than half of those assigned, and attested exactly the others. |
| `MeetupJudgement.VerdictIsSound` | ceremonies/src/lib.rs:1833-1857 | For every ballot the verdict names each legit participant once and within range, and never reports an index out of bounds. |
| `MeetupJudgement.ClaimSucceedsExactly` | ceremonies/src/lib.rs:408-544 | A claim for an open meetup succeeds in the registering phase whatever the ballot, and in the attesting phase exactly for an early verdict. |
| `RingPallet.Pallet.OnIdle` | reputation-rings/src/lib.rs:248-316 | For any weights the loop ends, never uses more than offered in either dimension, starts communities in order with the index of their batch, stops only for lack of weight or work, and leaves all five levels published for every community it finished. |
| `RingPallet.Pallet.ContinueUntilDone` | reputation-rings/src/lib.rs:401-422 | Continuing until nothing is pending takes exactly eleven calls and leaves five published levels. |
| `RingPallet.Pallet.ContinueRingComputation` | reputation-rings/src/lib.rs:401-422 | One call takes one of eleven steps and clears the computation after the last; it fails exactly when there is none to continue. |
| `RingPallet.Pallet.ProcessComputationStep` | reputation-rings/src/lib.rs:452-467 | A step keeps a computation on track: with keys and reputations stable every level built holds the sorted keys of its members, and nothing published is lost. |
| `RingPallet.CollectMembersStep` | reputation-rings/src/lib.rs:469-521 | A collection step counts one more ceremony for everybody, and the last one sorts. |
| `RingPallet.Pallet.BuildRingStep` | reputation-rings/src/lib.rs:529-589 | Publishes one level, cut into sub-rings, and leaves the other levels alone. |
| `RingPallet.Pallet.StoreLevel` | reputation-rings/src/lib.rs:551-579 | The sub-rings concatenated are the members; none is too large, and after a split none is less than half full. |
| `RingPallet.Pallet.InitiateRings` | reputation-rings/src/lib.rs:344-390 | Starts exactly in the assigning phase, for an existing community and a past ceremony, when nothing is pending. |
| `RingPallet.Pallet.QueueBatch` | reputation-rings/src/lib.rs:592-617 | Queues all communities for the completed ceremony unless the last batch is still waiting. |
| `RingPallet.PublishedNested` | reputation-rings/src/lib.rs:529-589 | The keys of level N + 1 are contained in those of level N, with multiplicity. |
| `Rings.LevelsNested` | reputation-rings/src/lib.rs:538-549 | Whoever attended N + 1 of the last five ceremonies is a member of level N. |
| `Rings.QualifiedAreMembers` | reputation-rings/src/lib.rs:538-549 | The accounts the attendance list qualifies are exactly those verified in at least that many of the last five ceremonies. |
| `Rings.ScanCeremony` | reputation-rings/src/lib.rs:498-510 | The scan adds one attendance for exactly the keyed accounts verified at that ceremony. |
| `Rings.SortSorts` | reputation-rings/src/lib.rs:474-475 | Sorting yields a sorted list with the same elements. |
| `Rings.SortedUnique` | reputation-rings/src/lib.rs:548-549 | A sorted list of keys is determined by its multiset. |
| `EvenSplit.PartsFit` | reputation-rings/src/lib.rs:551-579 | No part of the even split exceeds the limit. |
| `EvenSplit.PartsLargeEnough` | reputation-rings/src/lib.rs:551-579 | When a split happens each part has at least half the limit, rounded up. |
| `EvenSplit.PartSize` | reputation-rings/src/lib.rs:551-579 | Part sizes differ by at most one. |
| `LedgerRounding.NearlyBacked` | balances/src/lib.rs:225-368 | Over every run of operations at increasing blocks, with decay off an exact demurrage by at most lo below and hi above, the balances exceed the total by at most one lo per issue, burn and reading of the total, and one hi per balance written and read. |
| `LedgerRounding.ShortfallIs` | balances/src/lib.rs:225-368 | The bound of such a run is (n + 1) * lo + (2 * ops + accounts) * hi. |
| `LedgerRounding.ClipsAreSmall` | balances/src/lib.rs:276-368 | No operation of such a run clips by more than that. |
| `LedgerRounding.TruncationIsNear` | primitives/src/balances.rs:125-133 | Truncated multiplication of bits by a factor within delta of an exact one stays within one bit and delta times the cap. |
| `LedgerRounding.AlwaysBacked` | balances/src/lib.rs:225-368 | With exact decay the decayed balances never exceed the decayed total issuance and no operation clips. |
| `Ledger.OperationKeepsBacked` | balances/src/lib.rs:276-368 | In a backed ledger nothing clips, and every operation leaves it backed. |
| `LedgerRounding.TimeKeepsNear` | primitives/src/balances.rs:92-133 | Passing time only narrows the gap between the exactly decayed balances and total. |
| `Ledger.IssueAdds` | balances/src/lib.rs:324-346 | Issuing adds exactly the amount to the sum of decayed balances and to the total, for any decay. |
| `Ledger.BurnTakes` | balances/src/lib.rs:348-368 | Burning takes exactly the amount from the sum, and from the total down to zero, for any decay. |
| `Ledger.TransferConserves` | balances/src/lib.rs:276-322 | A transfer changes the sum only by reaped dust below the existential deposit and by what the cap clips, and leaves the total alone. |
| `Payments.TransferExactly` | balances/src/lib.rs:276-322 | A transfer goes through exactly if there is nothing to move, or the source exists and can pay and the destination exists or receives more than the deposit. |
| `Payments.TransferMoves` | balances/src/lib.rs:276-322 | A transfer takes the amount from the source, which reads nothing once reaped, and gives it to the destination up to the cap, at its block and every later one; nobody else is touched. |
| `Payments.TransferToSelf` | balances/src/lib.rs:276-322 | A transfer to oneself or of nothing leaves every balance as it reads. |
| `Payments.IssueGives` | balances/src/lib.rs:324-346 | Issuing fails or aborts exactly above the caps, and otherwise gives the amount to this account and the total only. |
| `Payments.BurnTakesFrom` | balances/src/lib.rs:348-368 | Burning succeeds exactly if the account can pay, and takes the amount from this account and the total only. |
| `Payments.TouchingIsFree` | balances/src/lib.rs:225-262 | Writing a balance back as it reads, at any block, changes no later reading. |
| `LedgerRounding.RoundingBreaksBacking` | primitives/src/balances.rs:125-133 | On raw bits, for any deposit, a cap of three bits or more, and every positive rate that leaves two thirds after e and 2e blocks: a run after which a balance of two bits stands over a total of one, and burning it clips. |
| `LedgerRounding.WholeRunBacked` | primitives/src/balances.rs:92-133 | With a decay that leaves whole bits alone, every run of whole-bit operations is backed. |
| `LedgerRounding.RunsBackedExactly` | primitives/src/balances.rs:92-133 | At rates that leave two thirds after e and 2e blocks, every run of whole-bit operations is backed if and only if there is no demurrage. |
| `Ledger.Pallet.DoTransfer` | balances/src/lib.rs:276-322 | Writes the specified balances, reaps dust, or fails without effect. |
| `Ledger.Pallet.DoIssue` | balances/src/lib.rs:324-346 | Writes the specified balance and total, fails without effect, or aborts where the unchecked addition overflows. |
| `Ledger.Pallet.DoBurn` | balances/src/lib.rs:348-368 | Writes the specified balance and total, or fails without effect. |
| `Converter.FixedToUnits` | primitives/src/balances.rs:178-189 | The units are floor(bits * 10^18 / 2^64), and fit u128. |
| `Converter.UnitsToFixed` | primitives/src/balances.rs:191-214 | The bits are the specified sum; below 10^18 * 2^64 units the addition cannot overflow. |
| `Converter.ConversionError` | primitives/src/balances.rs:191-214 | The result is below the exact value by less than 1 + 4 * (x >> 64) ulps. |
| `Converter.ConversionMonotone` | primitives/src/balances.rs:191-214 | More units never convert to a smaller balance. |
| `Converter.RoundTrip` | primitives/src/balances.rs:177-214 | Units to balance and back never gains; below 2^64 units it is exact if and only if the amount is representable, and one unit short otherwise. |
| `Converter.BalanceRoundTrip` | primitives/src/balances.rs:177-214 | Balance to units and back never gains, and loses less than 20 ulps below 2^64 units. |
| `Scheduler.RhythmPreserved` | scheduler/src/lib.rs:199-280 | Over every run of timestamps and manual phase changes the next phase change stays congruent to its slot in the cycle. |
| `Scheduler.RhythmFromMidnight` | scheduler/src/lib.rs:261-281 | The slots are counted from genesis midnight if and only if the registering duration equals the durations through the genesis phase modulo the cycle. |
| `Scheduler.ResyncLands` | scheduler/src/lib.rs:237-259 | Resynchronising keeps the slot and lands in [now, now + cycle]; the upper end is reached exactly when whole cycles were missed. |
| `Scheduler.ProgressKeepsRhythm` | scheduler/src/lib.rs:199-224 | A phase change keeps the rhythm and lands within one cycle from now. |
| `Scheduler.HandleKeepsRhythm` | scheduler/src/lib.rs:261-281 | Every event keeps the rhythm; one phase change per block suffices to catch up with the clock. |
| `Scheduler.PhasesInOrder` | scheduler/src/lib.rs:199-224 | Phases follow each other and the index advances once per cycle. |
| `Scheduler.HookMovesExactly` | scheduler/src/lib.rs:261-281 | A started scheduler keeps phase, index and slot at a timestamp exactly while its slot has not passed; after that a block moves on by one position. |
| `Scheduler.Pallet.ProgressPhase` | scheduler/src/lib.rs:199-224 | Writes the specified phase, index and timestamp; with an empty cycle it fails with only the index written. |
| `Scheduler.Pallet.ManualNextPhase` | scheduler/src/lib.rs:149-155 | The same as a transactional call: a failure changes nothing. |
| `Scheduler.EmptyCycleDrifts` | scheduler/src/lib.rs:199-281 | With an empty cycle, n timestamps past the end of an attesting phase advance the index by n, up to the end of u32, and nothing else. |
| `Scheduler.Pallet.OnTimestampSet` | scheduler/src/lib.rs:261-281 | The first timestamp anchors the rhythm; later ones end as specified, without rollback. |
| `Scheduler.Pallet.ResyncAndSet` | scheduler/src/lib.rs:237-259 | The timestamp stored lies in [now, now + cycle] and in the slot of the one proposed; without a cycle nothing is stored. |
| `Buckets.Pallet.DoAddLocation` | communities/src/lib.rs:427-461 | Succeeds exactly for a known community and a valid location, far enough from the others, with room in both lists; files the location and lists the community, keeps index, order and spacing, and changes nothing on failure. |
| `Buckets.Pallet.NewCommunity` | communities/src/lib.rs:98-161 | The same for a new community with its first location, as long as there is room for communities. |
| `Buckets.Pallet.DoRemoveLocation` | communities/src/lib.rs:463-475 | Succeeds exactly for a known community and a valid location; keeps the invariant if and only if the location is stored or the community has none in the bucket. |
| `Buckets.Pallet.RemoveLocationIntern` | communities/src/lib.rs:523-546 | Removes the location, and unlists the community unless a removed location leaves others behind. |
| `Buckets.Pallet.RemoveCommunity` | communities/src/lib.rs:548-573 | Leaves no location of the community, keeps all others and the invariant. |
| `Buckets.Pallet.ValidateLocation` | communities/src/lib.rs:738-756 | Accepts exactly valid locations away from the date line and far enough from everything stored in the examined buckets. |
| `Buckets.GetNearbyLocations` | communities/src/lib.rs:723-736 | Returns exactly the stored locations of the examined buckets. |
| `Buckets.RemovalAgreesExactly` | communities/src/lib.rs:523-546 | After a removal index and store agree if and only if the location was stored or the community had none in the bucket. |
| `Buckets.AddedKeeps` | communities/src/lib.rs:427-461 | Adding a sufficiently distant location keeps order, agreement, placement and spacing. |
| `Buckets.SameElementsSameList` | communities/src/lib.rs:435-455 | A strictly sorted list is determined by its elements. |
| `Buckets.BinarySearch` | communities/src/lib.rs:435-455 | Finds the element, or the position that keeps the list sorted. |

## Left out

- Attestation bookkeeping: the storage of votes and attestations is an arbitrary input of each claim, which covers every history of it.
- Hall.AssignMeetups: groups of more than 3 037 000 499 accounts are left out, because beyond that products of the inverse no longer fit i64 and the code skips participants.
- Hall.ComputeAssignmentAllowance: an underflow of the unchecked subtraction and a division by zero are outcomes without seats, whatever a build makes of them; Roster.SeatsNeverUnderflow excludes the first.
- Assignment.InverseExact: moduli above 3 037 000 499, for the same reason.
- CeremoniesPallet.Pallet.ClaimRewards: requires the seat invariant that Payout.RegistriesInEveryState proves for every reachable state.
- CeremoniesPallet.Pallet.GenerateAllMeetupAssignmentParams: random draws are inputs, assumed to lie in the range the generator promises; the retry loop that looks for a more even mapping is not modelled, since any draw in range will do.
- MeetupValidation.ExcludeByAttestations: grouping by value is modelled as the first group of a stable sort, the only one the code uses.
- Payments.TouchingIsFree: the decay over two stretches is the decay over both; how far truncation is off that is the subject of LedgerRounding.
- LedgerRounding.NearlyBacked: amounts are real numbers and the rate is fixed; how far the computed exponential is off an exact one is the parameter delta.
- TurnoutRule.ThresholdIsRule: square roots are exact; FixedPointRule covers truncated ones, with their accuracy as a parameter.
- Electorate.TurnoutWithinElectorate: for global proposals the bound needs the global counts to cover the roll at submission, which Electorate.PurgeBreaksGlobalCount shows they need not and FullTurnout.StaysWithinExactly shows to be needed.
- BackedRuns.BackedInEveryState: excludes manual and inactivity purges and refunds without a proof-backed registration, each of which can break the backing.
- FullTurnout.StaysWithinExactly: needs a roll within u128 and a rule that has a result for every number of nays up to it.
- VotingWindow.WindowExactly: all three phases have a duration, and the lifetime of a proposal and three cycles fit u64.
- TimedRuns.ElectorateConstant: the clock stays two cycles away from the end of u64 and the ceremony index below the end of u32.
- RingPallet.Pallet.OnIdle: the contents of rings are stated for keys and reputations that do not change during a computation; the purge of old rings is left out.
- Scheduler.RhythmPreserved: durations are constant and times stay two cycles away from the end of u64; `push_by_one_day` and `set_next_phase_timestamp` move the rhythm on purpose.
- Buckets.GetNearbyLocations: which neighbour buckets matter, geohashes, validity and trip times are parameters.
- Chain.RunKeeps: reputation lifetime, phase durations and quorum parameters are fixed for a run; groups are at most 3 037 000 499; ceremony indices and the product of turnout and 1000 are unbounded; only the scheduler saturates.
- `EndorseesCount`, burned tickets, inactivity counters, the demurrage rate, metadata, nominal income and account reference counts: simple records without a law of their own.
- The effects of enacted actions on other pallets: an action succeeds or fails as an input.
- Meetup times, haversine distance, geohash neighbours, `exp` and `sqrt`: numeric content, kept as parameters.
- Offline payment, `transfer_all`, bazaar, faucet, treasuries, transaction payment, vouches: cryptography, thin wrappers or plain map updates.
- Events, weights, origins, off-chain caches, encoding, migrations and RPC.
