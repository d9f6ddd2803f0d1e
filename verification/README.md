# DriftGuard-X: a verified model of its core

A Dafny model of the parts of DriftGuard-X whose correctness is not visible from
reading one function: the transparency ledger and its certificate witness, the
policy hierarchy with approvals, engine and shadow mode, the shared resource
budget, the causal reasoning board's test loop and diagnosis, the quarantining
memory store, the graph algorithms, and three statistics computed by short loops.
Check the project with `dafny verify dfyconfig.toml`.

| file | what it models |
|---|---|
| `Framing.dfy`, `Ledger.dfy`, `Witness.dfy` | byte framing, hash-chained table, concurrent writers, both verifiers, Merkle commits |
| `Policy.dfy`, `Inheritance.dfy`, `Shadow.dfy` | ancestor chain, rule fold, what inheritance and overrides guarantee, shadow evaluation |
| `Approvals.dfy`, `Engine.dfy` | approval life cycle and audit log, the decision pipeline on top of it |
| `Reservations.dfy` | reserve / commit / release, as objects and as a concurrent protocol |
| `Bayes.dfy`, `Bcrb.dfy`, `Diagnosis.dfy` | clamped Bayesian update, budgeted session loop, diagnosis |
| `Memory.dfy` | quarantine, capabilities, hash-chained access audit |
| `GraphValidation.dfy`, `BlastRadius.dfy`, `Diffusion.dfy` | DFS cycle check, BFS reach, clamped message passing |
| `Auroc.dfy`, `Conformal.dfy`, `Cusum.dfy` | trapezoid AUROC, split-conformal threshold, one-pass CUSUM |

Conventions. Floats are `real`, so rounding, NaN and infinities are absent. SHA-256 and
canonical JSON are function parameters; no global injectivity is assumed (it would
contradict the fixed digest length), only that the messages actually hashed by the
two tables under comparison do not collide. How datetimes are written and read is a parameter
too; it is assumed that what is written is read back. Each call that reads the clock receives one instant.
Canary outcomes, the logistic response, capability verification and the action-to-tier table
are arbitrary functions, so the results hold for all of them. Objects that the source
updates in place are classes whose methods are tied to state transformers; the
whole-run results are lemmas about those transformers.

## What the code does that its documentation does not say

- Override justification: `packages/policy/src/resolver.py:13-14` says a justified child rule may relax a
  parent; the code (lines 172-184) only records the override. `Inheritance.OverridePrevailsIff`: justified or not, the
  child's verdict prevails if and only if it is no looser than the parent's. Instance: `JustifiedChildStaysDenied`.
- Allowed roles: line 102 promises an intersection, but line 206 restarts from the next list once the
  intersection is empty, and an empty list admits everyone. `Inheritance.RolesFaithfulIff` and `ChildRolesIff` give the
  exact conditions, `DisjointListsAdmitAll` and `RestartAdmits` instances with two and three lists.
- Approval for HIGH and CRITICAL actions (`packages/policy/src/engine.py:15`): the engine asks for approval only where a
  rule does. `Engine.UncoveredAllowIff` is the exact condition, the tier is not part of it (`CriticalAllowed`).
- Cited requests: the engine compares only action and tenant of an approved request, and nothing of a broken-open one.
  `Engine.ForeignAllowIff`, `CitedSufficeIff` and `CallerApprovedIff` say exactly when a request serves another tenant
  or action, when it is sure to have the approvers the policy asks for, and when it can let one of its own approvers
  through, on any node; `ForeignBreakGlass` is an instance.
- Created requests: `packages/policy/src/approvals.py:120-128` files any request, one marked APPROVED included.
  `Approvals.AccountedIff`: the log accounts for the requests throughout a run if and only if whatever it creates is
  pending and undecided. `Engine.PreApprovedAllowed`: otherwise a call can be allowed with no approver.
- Cycle check: edges that leave undeclared nodes are dropped (`packages/graph/src/validation.py:53`), so such a
  cycle is not reported. `ExactIffSourcesDeclared` gives the exact condition, `UndeclaredSelfLoop` an instance.
- Blast radius: unlisted targets count, so the share can exceed 1 (`BlastRadius.UnlistedTargetsOverflow`);
  `ShareBoundedIff` gives the exact condition.
- Merkle root: leaves are not hashed before they are paired, and an odd last hash is paired with itself
  (`Witness.OddLastSameRoot`), so the root alone does not determine the list. `RootDeterminesIff`: it does, over
  lists of n and m hashes, if and only if n equals m or one of them is 0.
- Reservations: the settled flags are tested outside the lock. `Reservations.AtMostOnceIff`: every run settles every
  handle at most once, and keeps the counters exact, if and only if no handle has two users.
- Memory audit: fields are joined by an unescaped bar, a missing capability is hashed like the text None, and the
  verifier rewrites a timestamp before hashing it. `Memory.HeadDeterminesIff`: the head hash determines the log, up to
  how timestamps are written, if and only if no field but the capability may contain the bar and no capability is
  spelled None. `TimestampsDeterminedIff`: the texts of the timestamps too, if and only if no datetime has two.
- Memory tenants: the cross-tenant guard (`packages/memory/src/store.py:131`) is a prefix test. `Memory.ReadsBackIff`:
  one tenant can read another's write if and only if one of the two prefixes starts with the other; `PrefixLeak` is an
  instance.
- Approvals: `two_person_control` is recorded but never consulted; self-approval is refused in every case.

## Model

| member | source | states |
|---|---|---|
| `Framing.EntryMessageInjective` | packages/ledger/src/store.py:52-66 | the length-prefixed entry framing is injective in sequence number, previous hash and payload hash |
| `Framing.EntryLayout` | packages/ledger/src/store.py:52-66 | byte for byte: domain tag, then each field behind its four-byte length, readable back as numbers and fields |
| `Ledger.VerifyFullChain` | packages/ledger/src/store.py:243-290 | accepts a table if and only if it is a gapless chain from genesis of intact rows |
| `Ledger.VerifyChain` | packages/ledger/src/store.py:202-241 | returns the backward walk's outcome, for every bound beyond the table size |
| `Ledger.BoundDecides` | packages/ledger/src/store.py:210-239 | a walk longer than the table never ends, and any other outcome no longer changes |
| `Ledger.WalkSound` | packages/ledger/src/store.py:210-241 | success implies a linked list of intact stored rows back to genesis |
| `Ledger.WalkComplete` | packages/ledger/src/store.py:210-241 | every such list is reported as success |
| `Ledger.ChainedWalks` | packages/ledger/src/store.py:202-290 | on an accepted table the walk from any stored hash visits s, s-1, ..., 0 and succeeds |
| `Ledger.InsertExtends` | packages/ledger/src/store.py:105-147 | an insert against the current head extends the chain, one against a stale head fails on the primary key |
| `Ledger.WritersSafe` | packages/ledger/src/store.py:97-147 | any interleaving of any writers keeps a gapless accepted chain, append-only, with consecutive wins: at most one per head |
| `Ledger.WriteOutcome` | packages/ledger/src/store.py:121-147 | a stale writer changes nothing; a current one adds the row that continues the table, column by column, unless it cannot be packed or its hash is taken |
| `Ledger.ReadThenWrite` | packages/ledger/src/store.py:105-147 | an undisturbed read and write is an append |
| `Ledger.InsertIs` | packages/ledger/src/store.py:59-75 | an insert adds exactly its row and keeps the key constraints, and fails exactly on a used key or hash |
| `Ledger.SameHeadSameTable` | packages/ledger/src/store.py:47-66 | two accepted tables with one head hash agree in length and every hashed column of every row |
| `Ledger.TransparencyStore.Append` | packages/ledger/src/store.py:97-147 | adds the one row that continues the table, column by column, and returns its hash, or changes nothing exactly when the entry cannot be packed or its hash is taken; the chain stays accepted |
| `Witness.BuildLevel` | packages/ledger/src/witness.py:37-43 | the loop builds the next Merkle level, pairing an odd last node with itself |
| `Witness.ComputeMerkleRoot` | packages/ledger/src/witness.py:30-45 | computes the recursive root |
| `Witness.RootIs` | packages/ledger/src/witness.py:30-45 | the root from the bytes: nothing for no hash, a zero-byte hash of one, else the root of the level of one-byte hashes of neighbours |
| `Witness.RootAndCountDetermine` | packages/ledger/src/witness.py:57-71 | root and certificate count determine a list of equally long hashes |
| `Witness.OddLastSameRoot` | packages/ledger/src/witness.py:38-42 | repeating the last hash of any longer odd list keeps the root |
| `Witness.CountsShareRoot` | packages/ledger/src/witness.py:30-45 | whatever the hash, any two positive counts have digest-long lists of one root |
| `Witness.RootDeterminesIff` | packages/ledger/src/witness.py:30-45 | over lists of n and m hashes the root alone determines the list, short of a collision, if and only if n equals m or one is 0 |
| `Witness.CommitMessageInjective` | packages/ledger/src/witness.py:60-62 | the commit hash's message binds root (an empty batch's included), policy snapshot and canary result |
| `Witness.CommitCertificates` | packages/ledger/src/witness.py:47-77 | records one row with root and number of exactly the valid certificates, in order, and the hash of root, policy snapshot and canary result |
| `Witness.ValidHashesSelects` | packages/ledger/src/witness.py:57 | the committed hashes are those at all valid positions, in increasing order |
| `Witness.InvalidIrrelevant` | packages/ledger/src/witness.py:57 | an invalid certificate anywhere changes neither root nor count |
| `Witness.CommitHashBinds` | packages/ledger/src/witness.py:60-62 | two batches with one commit hash have one root, policy snapshot and canary result |
| `Witness.CommitThenVerify` | packages/ledger/src/witness.py:47-92 | what has just been committed is found and verified down to genesis |
| `Witness.VerifyCertificateCommit` | packages/ledger/src/witness.py:85-92 | finds the first row whose payload carries the commit hash and walks back from it; fails only if none carries it |
| `Witness.CommitVerifies` | packages/ledger/src/witness.py:85-92 | on an accepted table every recorded commit hash verifies down to genesis |
| `Witness.SameHeadSameCertificates` | packages/ledger/src/witness.py:47-77 | two accepted ledgers with one head committed the same certificate lists, commit row by commit row, whatever other rows they hold |
| `Policy.FirstMatch` | packages/policy/src/hierarchy.py:143-156 | the earliest matching rule, or none if none matches |
| `Policy.GlobMatches` | packages/policy/src/hierarchy.py:151-156 | a pattern ending in ".*" matches exactly its prefix and what lies under it |
| `Policy.PlainMatches` | packages/policy/src/hierarchy.py:151-156 | any other pattern matches itself only |
| `Policy.SoleGlob` | packages/policy/src/resolver.py:127-225 | under a sole rule for everything below a prefix exactly those actions resolve to it; all others, and all on an inactive node, to default deny |
| `Policy.InactiveRulesIrrelevant` | packages/policy/src/resolver.py:149-150 | the rules of an inactive node never matter to any resolution |
| `Policy.AncestorChain` | packages/policy/src/resolver.py:111-125 | terminates on every registry, cycles and missing parents included, with the ancestor chain root first |
| `Policy.ChainIs` | packages/policy/src/resolver.py:111-125 | that chain: parent-linked, within the tenant, without repeats, ending at the node and maximal upwards |
| `Policy.StrictestIs` | packages/policy/src/resolver.py:168-171 | the resolved verdict is the strictest of the matching rules |
| `Policy.VerdictIs` | packages/policy/src/resolver.py:168-171 | deny if any matching rule denies, allow if all allow, otherwise needs-approval |
| `Policy.WinnerIs` | packages/policy/src/resolver.py:162-171 | the winning rule is the earliest attaining it |
| `Policy.SeverestIs` | packages/policy/src/resolver.py:187-188 | the resolved tier is the severest |
| `Policy.TierIs` | packages/policy/src/resolver.py:187-188 | the first of CRITICAL, HIGH, MEDIUM that some rule names, else LOW |
| `Policy.MostApproversIs` | packages/policy/src/resolver.py:191 | the approver count is the maximum, at least 0 |
| `Policy.SmallestBudgetIs` | packages/policy/src/resolver.py:198-202 | the cap is the minimum of the caps set |
| `Policy.CombineIs` | packages/policy/src/resolver.py:155-225 | winner, two-person control, override chain and recorded conflict in terms of the rules |
| `Policy.FoldRules` | packages/policy/src/resolver.py:155-225 | the loop equals the declarative policy and raises exactly when an unjustified rule is looser than an earlier one |
| `Policy.PolicyRegistry.ResolvePolicy` | packages/policy/src/resolver.py:127-225 | resolution is the declarative policy over the matching rules of the ancestor chain, default deny if none match |
| `Inheritance.InsertionTightens` | packages/policy/src/resolver.py:166-209 | inserting rules anywhere preserves conflicts and never loosens verdict, tier, approvers, two-person control or budget |
| `Inheritance.ChildAtLeastAsStrict` | packages/policy/src/resolver.py:9-16 | a child that resolves is at least as strict as a parent with a match in verdict, tier, approvers, two-person control and budget |
| `Inheritance.LastPrevailsIff` | packages/policy/src/resolver.py:166-184 | the last rule's verdict is the resolved one if and only if no earlier rule is stricter, justified or not |
| `Inheritance.OverridePrevailsIff` | packages/policy/src/resolver.py:13-14 | a child's rule prevails if and only if it is no looser than the parent's resolution; a looser one raises, or if justified leaves the parent's verdict and marks a conflict |
| `Inheritance.JustifiedChildStaysDenied` | packages/policy/src/resolver.py:172-184 | a justified ALLOW under a DENY resolves to DENY |
| `Inheritance.ChildRolesIff` | packages/policy/src/resolver.py:205-209 | a child admits only roles its parent admits if and only if the parent's folded list or the child's list is empty, or they share a role |
| `Inheritance.DisjointListsAdmitAll` | packages/policy/src/resolver.py:205-209 | two disjoint lists admit every role |
| `Inheritance.RolesFaithfulIff` | packages/policy/src/resolver.py:205-209 | the effective role list means the joint restriction if and only if no rule restricts or some role is common to all that do |
| `Inheritance.RestartAdmits` | packages/policy/src/resolver.py:206-207 | the restart can admit a role an earlier list excludes |
| `Shadow.ShadowEvaluate` | packages/policy/src/shadow.py:70-134 | each result compares the candidate's verdict (deny on conflict) with the recorded one; the counters partition the events |
| `Shadow.CompareIs` | packages/policy/src/shadow.py:89-112 | deny before needs_approval before allow; a record with any other text counts as allow |
| `Shadow.RelaxedIff` | packages/policy/src/shadow.py:89-112 | for a candidate that only appends rules an event is relaxed if and only if nothing matched it before and it is no longer denied |
| `Shadow.ShadowAppended` | packages/policy/src/shadow.py:70-134 | over previously matched events: zero relaxed, unchanged plus tightened is the total |
| `Approvals.RunKeeps` | packages/policy/src/approvals.py:120-299 | in every run that creates pending requests the log accounts for every request; with new identifiers statuses move only as allowed and nothing is dropped |
| `Approvals.AccountedIff` | packages/policy/src/approvals.py:120-128 | the log accounts for the requests after every step of a run if and only if every request it creates is pending and undecided |
| `Approvals.CreateKeepsIff` | packages/policy/src/approvals.py:120-128 | the same for one creation, under a new or a used identifier |
| `Approvals.LogRebuildsState` | packages/policy/src/approvals.py:282-299 | folding the audit log gives each request's status and approver set, in every run that creates pending requests |
| `Approvals.ApprovedMeans` | packages/policy/src/approvals.py:132-166 | in those runs APPROVED implies enough distinct delegated approvers, never the requester, none recorded after expiry |
| `Approvals.NeverApprovesIff` | packages/policy/src/approvals.py:132-166 | someone is sure not to be among the approvers if and only if it is the requester, or approval is delegated to others |
| `Approvals.SureOfIff` | packages/policy/src/approvals.py:132-166 | approved requests asking for q approvers have w distinct ones in every run if and only if w is at most max(1, q) |
| `Approvals.ApproveExact` | packages/policy/src/approvals.py:132-166 | exactly when an approval is recorded and exactly when it completes the request |
| `Approvals.RepeatCountsOnce` | packages/policy/src/approvals.py:155-158 | a repeated approval by one actor cannot complete a request |
| `Approvals.SweepIsExact` | packages/policy/src/approvals.py:225-234 | a sweep expires exactly the pending requests past expiry |
| `Approvals.ApprovalIsForever` | packages/policy/src/approvals.py:253-268 | once APPROVED or BREAK_GLASS, always one of the two, in every run that does not reuse the identifier |
| `Approvals.DenialIsFinal` | packages/policy/src/approvals.py:170-183 | after a recorded denial no run that does not reuse the identifier approves the request: it stays DENIED or is broken open |
| `Approvals.EnoughApprove` | packages/policy/src/approvals.py:132-166 | a new request is APPROVED once as many different entitled people as it asks for, and at least one, have approved in time, and not before |
| `Approvals.ApprovalService.ApproveRequest` | packages/policy/src/approvals.py:132-166 | in-place approval performs the approve transition, with decision, log entries and every refusal |
| `Approvals.ApprovalService.DenyRequest` | packages/policy/src/approvals.py:170-183 | a denial is recorded exactly if the request is pending, in time and the actor entitled, with its decision and log entry; otherwise the refusal |
| `Approvals.ApprovalService.BreakGlassRequest` | packages/policy/src/approvals.py:187-221 | an override succeeds from every status exactly for anyone but the requester with a long enough justification, and is logged |
| `Approvals.ApprovalService.ExpireStale` | packages/policy/src/approvals.py:225-234 | the sweep loop performs the expiry transition and returns exactly the expired identifiers |
| `Engine.UncoveredAllowIff` | packages/policy/src/engine.py:124-206 | without a covering request a call is allowed if and only if some rule matches, every matching rule allows it with no approvers, and the folded roles admit the caller; the tier plays no part |
| `Engine.CriticalAllowed` | packages/policy/src/engine.py:15 | a CRITICAL action allowed without approval |
| `Engine.DecisionJustified` | packages/policy/src/engine.py:139-206 | at decision time an allow has a non-deny verdict, an admitted role, and either no approval needed or a consenting request; a denial comes exactly from a failed resolution, a deny verdict or a foreign role |
| `Engine.EveryAllowJustified` | packages/policy/src/engine.py:100-206 | in every run with approvals and registry changes every logged allow is and stays justified |
| `Engine.EveryAllowGrounded` | packages/policy/src/engine.py:100-206 | in every run each logged allow was made by some event from the policy the registry resolved to at that event, with a non-deny verdict, an admitted role and the consent the service then held |
| `Engine.CitationMatches` | packages/policy/src/engine.py:159-181 | in every run the request an allow cites is for the call's action and tenant, unless it was BREAK_GLASS at the decision |
| `Engine.ForeignAllowIff` | packages/policy/src/engine.py:159-181 | a request serves calls of another tenant or action if and only if it is BREAK_GLASS |
| `Engine.ForeignBreakGlass` | packages/policy/src/engine.py:174-181 | a run in which a call of one tenant is allowed by another tenant's request |
| `Engine.CitedSufficeIff` | packages/policy/src/engine.py:159-173 | cited approved requests that asked for q approvers have, in every run, as many as the policy in force asks for if and only if that is at most max(1, q) |
| `Engine.CallerApprovedIff` | packages/policy/src/engine.py:159-173 | on any node someone can be let through by a request it approved itself if and only if it did not make the request and approval was open to it |
| `Engine.PreApprovedAllowed` | packages/policy/src/engine.py:159-173 | a request filed as approved lets a call through with no approver |
| `Engine.PolicyEngine.EvaluateCall` | packages/policy/src/engine.py:100-206 | performs that decision and logs it; a needs-approval decision leaves exactly its request in the service, pending, for this call, asking for the larger of policy and tier; any other leaves the service alone |
| `Engine.EveryRequestFiled` | packages/policy/src/engine.py:182-199 | in every run the request of each needs-approval decision is in the service ever after |
| `Engine.ApprovedCallAllowed` | packages/policy/src/engine.py:159-199 | once enough different others have approved that request in time, the same call citing it is allowed under the same policy, whatever happens in between |
| `Reservations.ResourceContext.Reserve` | packages/contracts/src/interfaces.py:112-123 | grants exactly when spent plus reserved plus the estimate fits the budget |
| `Reservations.ResourceReservation.Commit` | packages/contracts/src/interfaces.py:87-91 | the first settlement charges the measurement and frees the estimate, later ones do nothing |
| `Reservations.ResourceReservation.Release` | packages/contracts/src/interfaces.py:93-97 | the first settlement frees the estimate, later ones do nothing |
| `Reservations.RunKeeps` | packages/contracts/src/interfaces.py:79-141 | the invariant of every interleaving in which no handle has two users, whoever reserved it |
| `Reservations.Conservation` | packages/contracts/src/interfaces.py:112-141 | counters equal the sums over unsettled and committed handles, and no handle settles twice |
| `Reservations.NeverOverBudget` | packages/contracts/src/interfaces.py:112-135 | with nonnegative estimates and measurements within them, spent plus reserved stays within budget |
| `Reservations.GrantedIff` | packages/contracts/src/interfaces.py:112-123 | an idle thread is granted a handle if and only if spent plus reserved plus the estimate fits |
| `Reservations.SettleAlone` | packages/contracts/src/interfaces.py:87-141 | undisturbed check, lock and flag are one settlement of the kind asked for |
| `Reservations.AtMostOnceIff` | packages/contracts/src/interfaces.py:87-97 | every run settles every handle at most once, and every run keeps the counters exact, if and only if no handle has two users |
| `Reservations.RaceSettlesTwice` | packages/contracts/src/interfaces.py:87-97 | any two users of any handle can free its estimate twice |
| `Bayes.Belief` | packages/bcrb/src/bayesian_updater.py:27-38 | a belief is a probability |
| `Bayes.BeliefIsShare` | packages/bcrb/src/bayesian_updater.py:32-38 | strictly between 0 and 1 the update is Bayes' rule; neither guard nor clamp acts |
| `Bayes.ConfidenceReachableIff` | packages/bcrb/src/calibration.py:215-216 | one replay can reach 0.9 if and only if the prior is at least 18/37 |
| `Bayes.RaisesBeliefIff` | packages/bcrb/src/calibration.py:215-216 | a replay raises belief exactly when the clamped response exceeds 0.525 |
| `Bayes.DoubtReachableIff` | packages/bcrb/src/calibration.py:215-216 | one replay can lower a belief to 0.1 if and only if the prior is at most 19/28 |
| `Bayes.ResponseSaturates` | packages/bcrb/src/calibration.py:215-216 | the likelihoods are r and 1.05 - r between the clamps, and all responses beyond one weigh alike |
| `Bayes.UpdateIs` | packages/bcrb/src/bayesian_updater.py:27-38 | the update multiplies the odds by the likelihood ratio, and impossible evidence leaves the prior |
| `Bcrb.GenerateCandidates` | packages/bcrb/src/candidate_planner.py:172-264 | exactly the plausible signals' candidates with their figures, in descending utility |
| `Bcrb.RankedBy` | packages/bcrb/src/candidate_planner.py:172-264 | one candidate ranks at least as high as another if and only if its benefit weighs as much against cost, risk and blast radius |
| `Bcrb.EvaluateStoppingConditions` | packages/bcrb/src/candidate_planner.py:266-282 | when each early stop is reported |
| `Bcrb.SelectNext` | packages/bcrb/src/orchestrator.py:61-100 | filter, sort and scan pick the first position that is untested and affordable |
| `Bcrb.UpdateBeliefs` | packages/bcrb/src/orchestrator.py:150-196 | only the tested candidate's posterior changes; recomputing untested utilities changes nothing |
| `Bcrb.ExecuteSession` | packages/bcrb/src/orchestrator.py:54-212 | always stops with a justified condition, low utility only before the first test, tests each candidate at most once in planner order, never overspends under the stated cost conditions, and without an effect on clean evidence sets no posterior and never stops on confidence |
| `Bcrb.PosteriorNeedsEvidence` | packages/bcrb/src/orchestrator.py:134-142 | a candidate has a posterior if and only if a test of it gave an effect on uncontaminated evidence |
| `Bcrb.OnlyMeasuredIsSpent` | packages/bcrb/src/orchestrator.py:126-131 | a measured cost is spent in full, an unmeasured one not at all |
| `Diagnosis.GenerateDiagnosis` | packages/diagnosis/src/engine.py:49-136 | isolates if and only if some posterior reaches 0.80; always names the first greatest posterior and its component; otherwise makes one inferred claim of that posterior, or 0 |
| `Diagnosis.ClaimsAreHighSteps` | packages/diagnosis/src/engine.py:57-107 | the measured claims are exactly the steps of high posterior |
| `Diagnosis.ConfidentNeedsPrior` | packages/bcrb/src/orchestrator.py:142-212 | confidence needs a tested candidate with prior at least 18/37 |
| `Diagnosis.ConfidentSession` | packages/bcrb/src/orchestrator.py:54-212 | the bound is met by whole sessions: from every prior of at least 18/37 some session stops on confidence |
| `Diagnosis.DiagnoseSession` | packages/bcrb/src/orchestrator.py:201-219 | a session stopped on confidence is diagnosed as isolated at a maximum posterior; one without clean evidence never is |
| `Memory.RunKeeps` | packages/memory/src/store.py:85-321 | in every run the log is chained and lawful and replays to the live quarantine status and lengths |
| `Memory.ContentsAreWrites` | packages/memory/src/store.py:125-166 | a partition holds exactly the accepted writes, in order |
| `Memory.QuarantineFreezes` | packages/memory/src/store.py:136-150 | a quarantined partition's contents stay fixed until a release row appears |
| `Memory.AccessFollowsLog` | packages/memory/src/store.py:125-289 | after any run, writes and reads are decided by what the log replays to, a quarantined read needs a verified FORENSIC_READ capability, and a read returns exactly the accepted writes |
| `Memory.ReadsBackIff` | packages/memory/src/store.py:131-177 | one tenant can read what another wrote if and only if one of their prefixes starts with the other |
| `Memory.PrefixLeak` | packages/memory/src/store.py:174 | tenant a reads what tenant a_b wrote |
| `Memory.VerifyAuditChain` | packages/memory/src/store.py:291-321 | accepts exactly the linked logs, whatever their columns hold, and raises exactly when the first fault is an unreadable timestamp |
| `Memory.VerifyRun` | packages/memory/src/store.py:291-321 | accepts the log of every run |
| `Memory.MessageText` | packages/memory/src/store.py:82 | the hashed text, field by field |
| `Memory.SameHeadSameLog` | packages/memory/src/store.py:81-83 | two accepted logs with one head, bars in capabilities only and no capability spelled None, are the same row by row, up to how timestamps are written |
| `Memory.HeadDeterminesIff` | packages/memory/src/store.py:81-83 | the head determines the log that far if and only if the bar is not in the alphabet of the other fields and None is not a capability |
| `Memory.TimestampsDeterminedIff` | packages/memory/src/store.py:309-315 | the head determines the timestamps' texts if and only if no two texts are read as one datetime |
| `Memory.MissingIsNone` | packages/memory/src/store.py:82 | a missing capability and one spelled None hash the same text |
| `Memory.ShiftedBar` | packages/memory/src/store.py:82 | text moved across the bar between requester and tenant hashes the same |
| `Memory.CheckCapability` | packages/memory/src/store.py:42-47 | some presented capability names action and resource and verifies |
| `Memory.ProvenanceMemoryStore.WriteItem` | packages/memory/src/store.py:125-166 | in-place write performs the write transition |
| `Memory.ProvenanceMemoryStore.ReadItems` | packages/memory/src/store.py:168-224 | in-place read performs the read transition |
| `Memory.ProvenanceMemoryStore.QuarantinePartition` | packages/memory/src/store.py:226-261 | performs the quarantine transition |
| `Memory.ProvenanceMemoryStore.UnquarantinePartition` | packages/memory/src/store.py:263-289 | performs the release transition |
| `GraphValidation.CycleSearch.IsCyclic` | packages/graph/src/validation.py:59-71 | the DFS either exhibits a loop or finishes the node with the stack restored |
| `GraphValidation.CheckCycles` | packages/graph/src/validation.py:46-75 | terminates and raises if and only if a causal cycle runs through declared nodes |
| `GraphValidation.ExactIffSourcesDeclared` | packages/graph/src/validation.py:50-54 | the check is exact for all edge lists over a source set if and only if those sources are declared |
| `GraphValidation.UndeclaredSelfLoop` | packages/graph/src/validation.py:53-54 | a cycle it misses |
| `GraphValidation.SelfLoopCounts` | packages/graph/src/validation.py:50-54 | every kind of edge closes a cycle except memory influence and retry or fallback |
| `BlastRadius.Reach` | packages/bcrb/src/calibration.py:143-160 | terminates with exactly the nodes reachable by at least one kept edge |
| `BlastRadius.BaseRadius` | packages/bcrb/src/calibration.py:163-166 | the radius of the first key the component contains, else of the key "default", else 0.10 |
| `BlastRadius.Estimate` | packages/bcrb/src/calibration.py:132-166 | the estimate is the reachable share, at least 0.05 and at most 1 when the edges have no more targets than there are nodes, or the base radius |
| `BlastRadius.ShareBoundedIff` | packages/bcrb/src/calibration.py:143-161 | from any nonempty list of matching nodes the reached share is at most 1 for all edge lists over a target set if and only if that set is no larger than the node list |
| `BlastRadius.UnlistedTargetsOverflow` | packages/bcrb/src/calibration.py:157-161 | a share of 2 |
| `BlastRadius.UnlistedSourceIgnored` | packages/bcrb/src/calibration.py:138-140 | an edge that leaves an unlisted node adds nothing to the reach |
| `BlastRadius.CaseIrrelevant` | packages/bcrb/src/calibration.py:132-143 | nodes match if and only if they contain the component's name, whatever the case |
| `Diffusion.BackwardEdges` | packages/diffusion/src/engine.py:31-36 | groups are the incoming edges of each target, in order |
| `Diffusion.Round` | packages/diffusion/src/engine.py:39-54 | one round is min(1, old score + sum of all messages) |
| `Diffusion.RunBackwardDiffusion` | packages/diffusion/src/engine.py:24-72 | root probabilities are the reference scores after the given rounds |
| `Diffusion.EdgeOrderIrrelevant` | packages/diffusion/src/engine.py:41-53 | edge order does not matter |
| `Diffusion.ScoresNeverFall` | packages/diffusion/src/engine.py:51-54 | scores never fall |
| `Diffusion.MonotoneInInputs` | packages/diffusion/src/engine.py:47-53 | scores are monotone in symptoms, confidences and decay |
| `Diffusion.PositiveIffReaches` | packages/diffusion/src/engine.py:39-54 | a score is positive after k rounds if and only if a symptom lies within k positive-confidence edges |
| `Diffusion.FirstArrival` | packages/diffusion/src/engine.py:39-54 | along a single path a symptom arrives after as many rounds as edges, with the product of confidences and decay, halved per edge of negative direction |
| `Auroc.ComputeAuroc` | packages/detectors/src/calibration.py:45-98 | rejects malformed input, gives 0 for one class, and otherwise the pairwise rank statistic, in [0, 1] before the clip |
| `Auroc.AreaIsRankStatistic` | packages/detectors/src/calibration.py:67-86 | the trapezoid area over descending thresholds is the rank statistic, ties counting one half |
| `Auroc.RankStatisticBounds` | packages/detectors/src/calibration.py:98 | it lies in [0, 1] |
| `Auroc.PerfectIff` | packages/detectors/src/calibration.py:45-98 | it is 1 if and only if every positive scores above every negative, and 0 if and only if below |
| `Auroc.ConfusionTotals` | packages/detectors/src/calibration.py:10-29 | hits and misses of a class add up to the class |
| `Conformal.Coverage` | packages/evaluation/src/bounds.py:318-329 | of n + 1 scores at least `rank` fall within the threshold of the others, ties included |
| `Conformal.CoverageExact` | packages/evaluation/src/bounds.py:318-329 | without ties exactly `rank` do |
| `Conformal.NominalCoverage` | packages/evaluation/src/bounds.py:279-348 | for any predictions and truths the intervals cover at least the nominal fraction of splits, or every split is refused for lack of data |
| `Conformal.BoundIs` | packages/evaluation/src/bounds.py:279-348 | exactly when an interval is given, symmetric around the centre, with the empirical quantile as half-width |
| `Cusum.ChangePoint` | packages/detectors/src/baselines.py:117-139 | alarms if and only if some contiguous window's drift-corrected deviation exceeds the threshold (always for a negative threshold, never on an empty series) |
| `Cusum.MeanIs` | packages/detectors/src/baselines.py:117-139 | the centre is the one value from which the deviations cancel out |

## Left out

- SQLite, SQLAlchemy, queues, HTTP, object storage, the API, web and CLI applications: tables are sequences and maps with their key constraints.
- Admission receipts and the replay worker.
- Cryptography, JSON canonicalisation, UUID generation: hashes and canonical forms are parameters, fresh identifiers are inputs that are not already in use.
- Floating-point rounding, NaN, infinities and interval overflow.
- Clock reads within one call: each call sees a single instant, so the decision time of an approval is the time of its expiry check.
- Integer limits of SQLite: sequence numbers are bounded only by the eight-byte packing.
- Aliasing of request and node objects held by callers: requests and nodes are values, replaced in their dictionaries.
- The action-to-tier table of packages/policy/src/tiers.py: the engine is modelled for every such table; the per-tier requirements are modelled.
- Ablation configurations of the session loop, and the estimators that produce priors, costs and risks.
- Average precision, the per-threshold F1 search and the other drift statistics.
- Explanations, rationale strings, log texts, conflict descriptions and policy versions.
- GraphValidation.CheckCycles: does not model Python's recursion limit; the search recurses once per node of a path, so a long enough path raises RecursionError instead.
- Engine.EveryAllowJustified: within runs of the engine, requests created directly at the approval service are pending and carry new identifiers; `Approvals.AccountedIff` and `Engine.PreApprovedAllowed` say what happens otherwise.
- Orphan-node validation, the in-memory ledger chain, the legacy policy gate and certification code: separate components that the modelled ones do not call.
