# Verified models of four Pelorus components

This project models, in Dafny, the parts of the Pelorus browser where a fast or
iterative form stands in for a simple meaning, and proves that the two agree on
every input, every run and every reachable state.

- **Content blocking** (`Block*.dfy`, from `px-block`). A URL pattern means that
  some assignment of its stars to substrings matches; the matcher is a leftmost
  scan that never goes back. Rules are filed under one rare token each, and the
  verdict is still the one of scanning every rule in id order: an important block,
  else an exception, else a plain block, the lowest id of its kind. `BlockHostRule`
  says what the commonest rule, `||domain^`, matches.
- **Capability broker** (`Broker*.dfy`, from `px-broker`). `BrokerTree` and
  `BrokerState` are the state machine on values, with the invariant every call
  keeps; `BrokerReach` says what every answer means in terms of who hosts
  and who embeds what; `BrokerRuns`, `BrokerHistory`, `BrokerOwners` and
  `BrokerIsolation` are the claims about whole runs, the last one that documents
  share a process exactly within one origin, group and top-level site;
  `BrokerWitness` gives runs that end in corner cases; `BrokerFrames` and
  `BrokerProgram` are the objects the broker updates in place, each call proved to
  move the state as the state machine says.
- **Accessibility tree** (`A11y*.dfy`, from `px-a11y`). `aria-owns`
  re-parenting on arrays keeps one tree within the depth cap, and `A11yOwns` says
  which requests are honoured and in which order children and nodes come; the
  accessible-name computation is a frame machine that answers what the recursion
  answers, and `A11yLaws` and `A11yContent` say what that is in terms of the document; a difference
  holds exactly the true changes (`A11yReport`), and updates sent to another process
  rebuild the tree at the receiver.
- **WebIDL checks and lowering** (`Idl*.dfy`, from `px-bindings`). Iterative
  flattening, a three-colour search and depth-capped walks, each equal to the
  unbounded definition it stands for, and what acceptance by the checks buys the
  lowering (`IdlDistinct`: which unions are accepted, kind by kind, and that a
  conversion loses nothing of the type but what it must).

Every file belongs to one module of the same name (`Common.dfy` holds three,
`Common`, `Sorting` and `Lex`); `dafny verify dfyconfig.toml` checks the whole project.

## What is true of the code and not obvious

- A delta leaves `index_in_parent` and `tab_index` as they were for a node the
  differ does not mention, so a receiver can end up with a stale index
  (`A11yDelta.StaleIndex`: the first child of a parent is removed, its sibling is
  not sent) and goes on rebuilding the old order after two children are swapped
  (`A11yDelta.SwapIsLost`). `A11yDelta.DeltaIsExactWhen` gives the exact condition
  for the whole tree and `A11yDelta.ChildListAfterDelta` for one child list.
- `attach_process` registers the process before it moves the frame. On a crashed
  frame the move fails and the registration stays
  (`BrokerState.FailedAttachRegisters`, if and only if; `BrokerWitness.FailedAttachStays`
  is a run that gets there).
- A commit in a process that serves no key yet, with the pool full, is an error
  (`FrameLimit`) and not the `AtCap` plan that a commit in a process with another
  key gets (`BrokerState.CommitAtCap`; `BrokerWitness.FirstCommitAtCap` and
  `LaterCommitAtCap` are the two answers after a run that fills the pool).
- A moved frame does not take its children along: its new host sees a child exactly
  if it saw it before the move (`BrokerHistory.MoveLeavesChildren`), and
  `BrokerWitness.ChildOutOfSight` is a run after which it does not.
- Flattening a union hides the `?` of a nested union, so `(long or (DOMString or
  boolean)?)` converts without accepting null, and a dictionary may stand beside such
  a union (`IdlNullable.NullIsLost`, `DictionaryBesideNull`). `ConvNullableAgrees` and
  `CheckedNullRulesAgree` say exactly when the code and Web IDL agree.
- A split into parts loses data exactly when a list exceeds 1024 full parts
  (`A11yWire.SplitIsLossless`); no tree within `MAX_NODES` gets there.
- The cap of 256 ancestors allows a chain of 256 above a dictionary, so a lineage
  has at most 257 members, and `lower_dictionary`, which stops once it holds more
  than 256, still reads all of it.

## Reading the contracts

A predicate that a contract names is defined beside it. The main ones:
`BlockGlob.Matching` (some placement of the elements matches),
`BlockTokens.IsUrlToken` and `IsIndexToken` (maximal runs), `BlockMatcher.Scan`
(try every rule), `BlockMatcher.RightVerdict` (the verdict in terms of applicable
rules), `BrokerReach.Controls` and `RightNavigation`, `BrokerIsolation.Isolated`,
`A11yLaws.Alike` (two documents with the same readable part), `A11yContent.TextIn`
(the visible text of a tree), `A11yOwns.Course` and
`Admissible`, `A11yReport.IsTrue` and `Follows`, `IdlTypes.UnionRules`,
`IdlCycles.HasLayout`, `BrokerTree.Forest`, `BrokerState.Inv`, `BrokerHistory.GivenSince`,
`A11yTree.IsTree` and `Ran`, `A11yName.TextOfEval` (the recursion), `A11yWire.Acceptable`,
`A11yWire.FirstFailing`, `IdlTypes.AllUnionsOk` and `EachOnce`, `IdlNullable.IncludesNullable`, `IdlCycles.HasCycle`, `IdlInherit.InheritanceOk`.

Preconditions are what the source establishes before the call: the host range of a
target lies in it behind a slash (`ValidTarget`, which `BuildTarget` ensures), a
matcher was built (`Filed`, which `Build` ensures), nodes are created parent first
(`Structural`), a model declares each name once (`WellIndexed`), and the broker is in
a reachable state (`Inv`, which `NextKeeps` carries through every call).

## Model

| member | source | states |
|---|---|---|
| `BlockGlob.ReferenceIsMeaning` | crates/px-block/src/hostile_tests.rs:158-214 | the exhaustive search over all starts accepts exactly the texts for which cut positions exist that place every element |
| `BlockGlob.GoGivesCuts` | crates/px-block/src/hostile_tests.rs:165-195 | every successful search yields a placement of all elements from the same start |
| `BlockGlob.CutsGiveGo` | crates/px-block/src/hostile_tests.rs:165-195 | every placement is found by the search |
| `BlockGlob.SegEnd` | crates/px-block/src/glob.rs:303-324 | a star-free segment that fits at p ends at min(p + length, end of text), so its end is monotone in p |
| `BlockGlob.LeftmostSuffices` | crates/px-block/src/glob.rs:203-246 | the exchange argument: a segment followed by a star may be placed leftmost without losing a match of what follows |
| `BlockGlob.AnchoredSegment` | crates/px-block/src/glob.rs:211-228 | for a start or host anchor, the first allowed start where the first segment fits decides the match |
| `BlockGlob.FreeSegment` | crates/px-block/src/glob.rs:237-243 | for a later segment, the leftmost fit decides the match of the rest |
| `BlockGlob.MatchAt` | crates/px-block/src/glob.rs:303-324 | the element loop computes where the segment ends, or that it does not fit |
| `BlockGlob.MatchAtHost` | crates/px-block/src/glob.rs:328-345 | the dot-hopping loop returns the first host boundary where the segment fits and ends as required, and None only if there is none |
| `BlockGlob.AnchoredFit` | crates/px-block/src/glob.rs:212-227 | the first segment under a start or host anchor is found exactly if it can begin a match, and a match then exists if and only if the rest fits after it |
| `BlockGlob.FreeFit` | crates/px-block/src/glob.rs:228-243 | the same for a segment that may be placed anywhere from the current position on, with or without the end anchor |
| `BlockGlob.AnyReachesEnd` | crates/px-block/src/glob.rs:229-236 | trying only the last few starts decides whether the last segment can end at the end of the text |
| `BlockGlob.Matches` | crates/px-block/src/glob.rs:205-246 | the never-backtracking scan returns true if and only if the pattern matches, for all three start anchors with and without the end anchor |
| `BlockGlob.CollapseMeaning` | crates/px-block/src/glob.rs:159-165 | collapsing runs of stars keeps what is matched from every position, whatever follows |
| `BlockGlob.DropFirstStar` | crates/px-block/src/glob.rs:166-169 | dropping a leading star and its anchor keeps the meaning unless the anchor is the host anchor |
| `BlockGlob.DropLastStar` | crates/px-block/src/glob.rs:170-173 | dropping a trailing star together with the end anchor keeps the meaning |
| `BlockGlob.NewPattern` | crates/px-block/src/glob.rs:158-179 | the built pattern is normalised and matches exactly the same texts as the given elements |
| `BlockTokens.UrlTokens` | crates/px-block/src/glob.rs:349-372 | the tokens are exactly the maximal token-byte runs of 2 to 64 bytes, in lexicographic order, each once |
| `BlockTokens.IndexTokens` | crates/px-block/src/glob.rs:254-299 | the tokens are exactly the maximal literal runs pinned on both sides, of 2 to 64 bytes, lower-cased, each once, in the order in which they first occur in the pattern |
| `BlockTokens.RunLandsWhole` | crates/px-block/src/glob.rs:248-253 | in any match a pinned run covers a maximal run of the text of the same length |
| `BlockTokens.TokensAreFound` | crates/px-block/src/glob.rs:248-299 | if a pattern matches a target, every index token of it is a token of the lower-cased target, in either case mode |
| `BlockDomains.ScanIncluded` | crates/px-block/src/filter.rs:127-131 | the first loop finds the length of the longest include entry covering the host, or that there is none |
| `BlockDomains.ScanExcluded` | crates/px-block/src/filter.rs:132-136 | the second loop lets an exclusion of at least that length win |
| `BlockDomains.Allows` | crates/px-block/src/filter.rs:115-141 | a rule applies on a host if and only if some include entry is longer than every exclude entry covering it, or nothing covers it and there is no include list |
| `BlockMatcher.BuildTarget` | crates/px-block/src/matcher.rs:131-157 | a target exists for network schemes only; its host range holds the host, follows a slash, and prefix and suffix are the scheme and port, path and query |
| `BlockMatcher.FirstOf` | crates/px-block/src/matcher.rs:332-363 | the reference: the lowest id of an applicable rule of a class |
| `BlockMatcher.Gather` | crates/px-block/src/matcher.rs:192-205 | entries are the first million rules of the lists in order, and every other rule is counted as dropped |
| `BlockMatcher.CountTokens` | crates/px-block/src/matcher.rs:206-212 | each token is counted once per rule that could use it |
| `BlockMatcher.Rarest` | crates/px-block/src/matcher.rs:218-225 | the chosen token is the rarest, then longest, then lexicographically least of the pattern, and None only if the pattern has none |
| `BlockMatcher.RarestIsUnique` | crates/px-block/src/matcher.rs:218-225 | a pattern has at most one rarest token, so a rule is in at most one bucket |
| `BlockMatcher.Build` | crates/px-block/src/matcher.rs:191-237 | a bucket holds exactly the rules whose rarest token is its key, the untokenized list exactly those without a token, and no rule is left out |
| `BlockMatcher.SortDedup` | crates/px-block/src/matcher.rs:327-328 | candidates come out strictly ascending with the same members |
| `BlockMatcher.RuleApplies` | crates/px-block/src/matcher.rs:337-355 | the four filters of the loop accept exactly the rules that apply to the request |
| `BlockMatcher.ApplicableIsFound` | crates/px-block/src/matcher.rs:321-326 | a rule that applies is always among the candidates that the request's tokens lead to |
| `BlockMatcher.Candidates` | crates/px-block/src/matcher.rs:321-328 | the candidates are exactly the untokenized rules and those filed under a token of the URL |
| `BlockMatcher.Decide` | crates/px-block/src/matcher.rs:330-373 | the loop over ascending candidates that contain every applicable rule returns the verdict of the full scan |
| `BlockMatcher.CheckTarget` | crates/px-block/src/matcher.rs:311-373 | over the token index the verdict is that of trying every rule, and it is the right one: an exception if and only if one applies and no important block does, a block if and only if an important one applies or a plain one and no exception, with the lowest applicable id of the deciding kind; a document is always allowed |
| `BlockMatcher.ScanIsRight` | crates/px-block/src/matcher.rs:311-373 | the full scan gives the right verdict in terms of the rules that apply, their `exception` and `important` fields and their ids |
| `BlockMatcher.RightVerdictIsUnique` | crates/px-block/src/matcher.rs:364-372 | there is only one right verdict for a request |
| `BlockMatcher.MaskIsSet` | crates/px-block/src/filter.rs:59-102 | a type mask is a set: adding a type adds that type and no other |
| `BlockMatcher.PartyRestricts` | crates/px-block/src/matcher.rs:337-355 | restricting a rule to a party keeps it exactly for requests of that party |
| `BlockMatcher.CaseIsIgnored` | crates/px-block/src/matcher.rs:337-355 | without `match-case` a rule does not tell apart two requests that differ in case only |
| `BlockHostRule.SeparatorsAre` | crates/px-block/src/glob.rs:99-105 | a separator is any ASCII byte but letters, digits and the four characters of host and escape syntax |
| `BlockHostRule.EndsAtHost` | crates/px-block/src/glob.rs:205-246 | in a match of `||d^` the literals end exactly where the host ends |
| `BlockHostRule.MatchIsUnder` | crates/px-block/src/glob.rs:328-345 | a URL that `||d^` matches has d or a subdomain of it as its host |
| `BlockHostRule.UnderIsMatch` | crates/px-block/src/glob.rs:328-345 | and every URL with such a host is matched |
| `BlockHostRule.DomainRuleMeans` | crates/px-block/src/glob.rs:205-246 | where the host holds no separator and a separator or the end follows it, as for every domain name, `||d^` matches exactly the URLs whose host is d or ends in a dot and d |
| `BlockHostRule.SameAsDomainEntry` | crates/px-block/src/filter.rs:115-117 | that is the relation by which a `domain=` entry covers a host |
| `BrokerTree.FirstReusable` | crates/px-broker/src/lib.rs:322-344 | the slot handed out is the first free one whose generation can still grow |
| `BrokerTree.AllocKeeps` | crates/px-broker/src/lib.rs:314-359 | minting a frame keeps the forest, the handle named nothing before, and no other handle changes existence or owner |
| `BrokerTree.CreateKeeps` | crates/px-broker/src/lib.rs:270-276 | a top-level frame gets a group of its own and the forest is kept |
| `BrokerTree.CreateChildKeeps` | crates/px-broker/src/lib.rs:280-312 | a child is made only under a live frame of the caller, within depth 8, 256 children and distinct ordinals, and the forest is kept |
| `BrokerTree.RootOf` | crates/px-broker/src/lib.rs:453-469 | every frame has a top-level frame above it, of the same group |
| `BrokerTree.GroupHasOneRoot` | crates/px-broker/src/lib.rs:270-276 | two frames share a group if and only if they share their top-level frame |
| `BrokerTree.SubtreeIsClosed` | crates/px-broker/src/lib.rs:542-563 | nothing outside a set and its descendants hangs from inside |
| `BrokerTree.FreeSubtreesKeeps` | crates/px-broker/src/lib.rs:565-581 | freeing frames with everything beneath keeps the forest and removes exactly those handles |
| `BrokerTree.CrashKeeps` | crates/px-broker/src/lib.rs:497-531 | after a crash exactly the outermost frames of the channel became crashed under unchanged ids, exactly the frames beneath its frames are gone, and the forest is kept |
| `BrokerTree.OutermostParent` | crates/px-broker/src/lib.rs:510-515 | an embedded outermost frame hangs from a live frame of another channel |
| `BrokerTree.RetouchingKeeps` | crates/px-broker/src/lib.rs:440-482 | changing the owner or origin of one live frame keeps the forest and every other owner |
| `BrokerTree.OwnedMeansLive` | crates/px-broker/src/lib.rs:229-230 | a frame has an owner if and only if it is live |
| `BrokerTree.KeyMeans` | crates/px-broker/src/site.rs:63-80 | a frame has a key if and only if it has an origin and the one recorded at its top-level frame has a registrable domain, and the key is these two |
| `BrokerState.PoolKeeps` | crates/px-broker/src/site.rs:125-168 | registering and forgetting keep the two maps inverse to each other with at most 64 entries, and forgetting touches no other channel |
| `BrokerState.LookupShares` | crates/px-broker/src/site.rs:127-135 | a lookup shares exactly with the one channel that serves the key |
| `BrokerState.LookupForetells` | crates/px-broker/src/site.rs:127-156 | a lookup says spawn, at capacity or share exactly when registering a channel without a key would succeed, hit the cap or find the key taken |
| `BrokerState.OpenKeeps` | crates/px-broker/src/lib.rs:650-655 | opening a channel keeps the invariant |
| `BrokerState.CloseKeeps` | crates/px-broker/src/lib.rs:662-667 | closing keeps the invariant: hosts equal the live frames owned, visible frames exist, owners and pooled channels are open |
| `BrokerState.DiedKeeps` | crates/px-broker/src/lib.rs:674-683 | so does the death of a channel |
| `BrokerState.NoticesReachOpenChannels` | crates/px-broker/src/lib.rs:497-531 | every crash notice is owed to a channel that is still open and not to the dead one |
| `BrokerState.CreateFrameKeeps` | crates/px-broker/src/lib.rs:966-975 | creating a frame keeps the invariant |
| `BrokerState.CreateChildFrameKeeps` | crates/px-broker/src/lib.rs:710-741 | creating a child frame keeps the invariant |
| `BrokerState.GrantKeeps` | crates/px-broker/src/lib.rs:992-1003 | granting sight keeps the invariant |
| `BrokerState.TransferKeeps` | crates/px-broker/src/lib.rs:823-853 | a successful move makes the target the owner and keeps the invariant; a failed one changes nothing |
| `BrokerState.CommitKeeps` | crates/px-broker/src/lib.rs:754-797 | committing a document keeps the invariant whatever the plan |
| `BrokerState.CommittedIsServed` | crates/px-broker/src/lib.rs:743-784 | after InPlace or Transferred the frame's owner is registered for exactly the frame's own group and key |
| `BrokerState.CommitAtCap` | crates/px-broker/src/lib.rs:768-797 | with the pool full and the key unserved the load is refused: AtCap if the owner serves another key, FrameLimit if it serves none |
| `BrokerState.AttachKeeps` | crates/px-broker/src/lib.rs:801-815 | a successful attach makes the process the owner, registered for the frame's group and the given key |
| `BrokerState.FailedAttachRegisters` | crates/px-broker/src/lib.rs:801-815 | a failed attach changes the state if and only if the frame is crashed, the channel open and the pool had room for the key |
| `BrokerState.FrameHostMeans` | crates/px-broker/src/lib.rs:1071-1115 | Local if and only if the asker owns the live frame, Remote if and only if another owns it and the asker can see it, Denied otherwise |
| `BrokerState.AnswersLeakNothing` | crates/px-broker/src/lib.rs:1005-1015 | two states that agree on what a channel was given give it the same answer to every question |
| `BrokerState.ServeKeeps` | crates/px-broker/src/lib.rs:1051-1064 | serving a request, panicking or not, keeps the invariant |
| `BrokerState.DispatchFrameKeeps` | crates/px-broker/src/lib.rs:862-888 | serving a frame request keeps the invariant |
| `BrokerReach.AncestorIsPath` | crates/px-broker/src/lib.rs:427-437 | being an ancestor is being reached by following parent handles |
| `BrokerReach.AuthoriseMeans` | crates/px-broker/src/lib.rs:892-929 | navigation is authorised exactly for a host of the frame or of one that embeds it; each reason exactly when its test is the first to fail |
| `BrokerReach.CreateAnswers` | crates/px-broker/src/lib.rs:966-975 | a top-level frame is refused only to a closed channel or when handles or groups run out |
| `BrokerReach.OpenAnswers` | crates/px-broker/src/lib.rs:650-655 | a channel is refused only when ids run out |
| `BrokerReach.GrantAnswers` | crates/px-broker/src/lib.rs:992-1003 | sight is granted exactly of a live frame to an open channel, and then the channel has it |
| `BrokerReach.ChildAnswers` | crates/px-broker/src/lib.rs:710-741 | a child frame is made exactly if every demand is met, each reason exactly when its test is the first to fail |
| `BrokerReach.ChildIsPlaced` | crates/px-broker/src/lib.rs:280-312 | a new child is live, without an origin, one level below its parent at its ordinal, in its group, and hosted by the caller |
| `BrokerReach.TransferAnswers` | crates/px-broker/src/lib.rs:823-853 | a live frame goes to any open channel or stays with its host; the answer names whom it replaced, no other frame changes hosts, and each reason is exact |
| `BrokerReach.CloseMeans` | crates/px-broker/src/lib.rs:662-667 | after a close exactly the frames that the channel hosted, or that those embed at any distance, are gone; other hosts, channels and registrations stay |
| `BrokerReach.DiedMeans` | crates/px-broker/src/lib.rs:674-683 | after a death exactly the frames embedded in those of the channel are gone and its remaining ones are crashed under their ids; other hosts, channels and registrations stay |
| `BrokerReach.AttachAnswers` | crates/px-broker/src/lib.rs:801-815 | an attach succeeds exactly for a live frame, an open process without a key, an unserved key and a pool with room; each reason is exact |
| `BrokerReach.CommitAnswers` | crates/px-broker/src/lib.rs:754-797 | the plan told from the origin given, the site of the top-level origin and who serves that: in place, moved to the server, a new process, at the cap, or the error |
| `BrokerRuns.NextKeeps` | crates/px-broker/src/lib.rs:637-1116 | every call keeps the forest, the capability table, the pool and the audit bound |
| `BrokerRuns.After` | fuzz/fuzz_targets/broker_sequence.rs:19-123 | the invariant holds after every run from the empty broker |
| `BrokerRuns.StepGrows` | crates/px-broker/src/lib.rs:314-359 | a call mints at most one handle, one never spent before; no handle is unspent and no other handle appears |
| `BrokerRuns.MintedHandlesDiffer` | crates/px-broker/src/lib.rs:260-359 | no two steps of a run mint the same handle |
| `BrokerRuns.FreedHandleIsDead` | crates/px-broker/src/lib.rs:571-591 | once a handle stops naming a frame it never names one again, through slot reuse and retirement |
| `BrokerHistory.TransferSight` | crates/px-broker/src/lib.rs:817-853 | a move shows the frame to its new owner and embedder and hides it from the old owner unless that is the embedder; nobody else's sight changes |
| `BrokerHistory.StepSight` | crates/px-broker/src/lib.rs:650-1003 | after any call a channel sees a frame if and only if the call gave sight of it, or it saw it and the call did not take it |
| `BrokerHistory.SightIsHistory` | fuzz/fuzz_targets/broker_sequence.rs:66-112 | after any run a channel sees exactly the frames some step gave it sight of and no later step took |
| `BrokerHistory.AnswersAreHistory` | crates/px-broker/src/lib.rs:1071-1115 | after any run Local goes to the owner only, Remote exactly to channels given sight of that very frame and not since deprived while it is live elsewhere, Denied to the rest |
| `BrokerHistory.AnswersAfterMove` | crates/px-broker/src/lib.rs:817-853 | after a process swap the new owner is told Local, the embedder Remote, the old owner Denied unless it embeds the frame |
| `BrokerHistory.MoveLeavesChildren` | crates/px-broker/src/lib.rs:817-853 | a move changes nobody's sight of a child of the moved frame: its new host sees the child if and only if it did before |
| `BrokerWitness.ChildOutOfSight` | crates/px-broker/src/lib.rs:817-853 | a run after which a channel hosts a frame and cannot see its child |
| `BrokerWitness.FailedAttachStays` | crates/px-broker/src/lib.rs:801-815 | a run after which attaching a process to a crashed frame is refused and the process is registered all the same |
| `BrokerWitness.FillRunLeads` | crates/px-broker/src/lib.rs:754-784 | for every n up to 64, the run in which n channels open, create a frame and commit leads to a pool of exactly n processes, each in place |
| `BrokerWitness.FirstCommitAtCap` | crates/px-broker/src/lib.rs:770-784 | after 64 channels claimed a key, the first commit of another channel is the error FrameLimit |
| `BrokerWitness.LaterCommitAtCap` | crates/px-broker/src/lib.rs:786-797 | in the same state, a commit of another key by a channel that serves one gets the plan AtCap |
| `BrokerHistory.StepAges` | crates/px-broker/src/lib.rs:650-655 | a call opens at most one channel, with an id never used before, and leaves the key of every channel that stays open alone |
| `BrokerHistory.ChannelsAreNotReused` | crates/px-broker/src/lib.rs:643-655 | no two steps of a run open the same channel, and a channel once shut stays shut |
| `BrokerHistory.ServedKeyIsFixed` | crates/px-broker/src/site.rs:114-119 | while a channel is open, the group and key it serves never change |
| `BrokerOwners.StepHandsOver` | crates/px-broker/src/lib.rs:817-853 | only a commit or attach that moved the frame gives a known frame a different host, from the old to the new one |
| `BrokerOwners.OnlyMovesChangeHosts` | fuzz/fuzz_targets/broker_sequence.rs:114-123 | a frame not moved between two moments of a run and hosted at the later one had that host all along; a crashed or freed frame is never hosted again |
| `BrokerIsolation.RunExists` | crates/px-broker/src/lib.rs:637-1116 | every list of calls has its run of states and plans |
| `BrokerIsolation.SitesAreIsolated` | crates/px-broker/src/lib.rs:743-797 | site isolation over every run: two documents committed in place or by a move are left with the same process only if their origins, groups and top-level sites are equal, and then they are if the first process is still open |
| `BrokerIsolation.NavigationAfterRun` | crates/px-broker/src/lib.rs:862-929 | after any run a frame request to navigate is authorised if and only if the channel is open and hosts the live frame or one that embeds it, and the URL parses |
| `BrokerFrames.FrameTree.Resolve` | crates/px-broker/src/lib.rs:583-591 | a handle resolves exactly when it names a live or crashed frame at its generation |
| `BrokerFrames.FrameTree.IsAncestor` | crates/px-broker/src/lib.rs:425-437 | the walk of nine steps decides the ancestor relation at any distance |
| `BrokerFrames.FrameTree.ProcessKeyOf` | crates/px-broker/src/lib.rs:450-469 | the bounded walk finds the real top-level frame; the key is there if and only if it is the frame's own origin with the site of the origin recorded at the top |
| `BrokerFrames.FrameTree.Alloc` | crates/px-broker/src/lib.rs:314-359 | the slot loop retires exhausted slots and fills the first reusable one, as `BrokerTree.Alloc` |
| `BrokerFrames.FrameTree.Create` | crates/px-broker/src/lib.rs:270-276 | the tree moves as `BrokerTree.Create` says and stays a forest |
| `BrokerFrames.FrameTree.ScanChildren` | crates/px-broker/src/lib.rs:298-309 | the scan reports exactly whether the ordinal is taken, and otherwise the number of children |
| `BrokerFrames.FrameTree.CreateChild` | crates/px-broker/src/lib.rs:280-312 | the tree moves as `BrokerTree.CreateChild` says, refusals included, and stays a forest |
| `BrokerFrames.FrameTree.CommitOrigin` | crates/px-broker/src/lib.rs:440-448 | the origin of a live frame is recorded, and of no other |
| `BrokerFrames.FrameTree.Transfer` | crates/px-broker/src/lib.rs:474-482 | a live frame goes from its owner to another, and nothing else changes |
| `BrokerFrames.FrameTree.OwnedBy` | crates/px-broker/src/lib.rs:533-540 | exactly the live frames of the channel |
| `BrokerFrames.FrameTree.Pass` | crates/px-broker/src/lib.rs:547-558 | one pass grows the set within every closed superset, or leaves it closed under embedding |
| `BrokerFrames.FrameTree.Descendants` | crates/px-broker/src/lib.rs:543-563 | the repeated passes end and compute the whole transitive closure of embedding |
| `BrokerFrames.FrameTree.FreeIndices` | crates/px-broker/src/lib.rs:571-581 | exactly the given slots are freed, in whatever order the set yields them |
| `BrokerFrames.FrameTree.ReleaseAll` | crates/px-broker/src/lib.rs:492-495 | the frames of a channel and everything embedded in them are freed |
| `BrokerFrames.FrameTree.Destroy` | crates/px-broker/src/lib.rs:370-383 | only the owner of a live frame destroys it, with everything beneath |
| `BrokerFrames.SortNotices` | crates/px-broker/src/lib.rs:528-528 | notices come out strictly ordered by owner and frame index, with the same members |
| `BrokerFrames.FrameTree.CrashFrames` | crates/px-broker/src/lib.rs:509-527 | crashing the outermost frames one by one, in any order, collects exactly the notices owed in the tree before the crash |
| `BrokerFrames.FrameTree.CrashChannel` | crates/px-broker/src/lib.rs:505-531 | the tree moves as `BrokerTree.Crash` says; there is exactly one notice per crashed embedded frame, to the owner of its parent, in order |
| `BrokerProgram.ProcessPool.Lookup` | crates/px-broker/src/site.rs:127-135 | Share names the one channel that serves the key; Spawn and AtCap foretell that registering any channel without a key would succeed, or would hit the cap |
| `BrokerProgram.ProcessPool.Register` | crates/px-broker/src/site.rs:138-156 | both maps gain the entry, or neither changes and the reason is given |
| `BrokerProgram.ProcessPool.Forget` | crates/px-broker/src/site.rs:164-168 | both maps lose the channel's entry |
| `BrokerProgram.Broker.OpenChannel` | crates/px-broker/src/lib.rs:650-655 | the broker's state moves as `BrokerState.Open` says |
| `BrokerProgram.Broker.PurgeDeadFrames` | crates/px-broker/src/lib.rs:690-696 | every channel keeps exactly the hosted frames it owns and the visible frames that exist |
| `BrokerProgram.Broker.CloseChannel` | crates/px-broker/src/lib.rs:662-667 | the state moves as `BrokerState.Close` says and stays valid |
| `BrokerProgram.Broker.ChannelDied` | crates/px-broker/src/lib.rs:674-683 | the state moves as `BrokerState.Died` says; the notices are exactly those owed, in order, each to an open channel |
| `BrokerProgram.Broker.CreateFrame` | crates/px-broker/src/lib.rs:966-975 | the state moves as `BrokerState.CreateFrame` says and stays valid |
| `BrokerProgram.Broker.CreateChildFrame` | crates/px-broker/src/lib.rs:710-741 | the state moves as `BrokerState.CreateChildFrame` says; it succeeds exactly if every demand is met, and each reason is given exactly when its test is the first to fail |
| `BrokerProgram.Broker.GrantVisibility` | crates/px-broker/src/lib.rs:992-1003 | the state moves as `BrokerState.Grant` says |
| `BrokerProgram.ThreeUpdates` | crates/px-broker/src/lib.rs:835-848 | the three successive table updates of a move amount to the one simultaneous update, also when the embedder is the old or new owner |
| `BrokerProgram.Broker.TransferFrame` | crates/px-broker/src/lib.rs:823-853 | the state moves as `BrokerState.TransferFrame` says |
| `BrokerProgram.Broker.CommitDocument` | crates/px-broker/src/lib.rs:754-784 | the state and plan are those of `BrokerState.Commit`, and the plan is the right one for the given origin, the site at the top and who serves that (`BrokerReach.RightCommit`); after InPlace or Transferred the frame's owner is registered for exactly the frame's group and key |
| `BrokerProgram.Broker.PlanOtherProcess` | crates/px-broker/src/lib.rs:786-797 | the state and plan are those of `BrokerState.PlanOther` |
| `BrokerProgram.Broker.AttachProcess` | crates/px-broker/src/lib.rs:801-815 | the state and answer are those of `BrokerState.Attach`; on success the process owns the frame and is registered for its group and the given key |
| `BrokerProgram.Broker.Answer` | crates/px-broker/src/lib.rs:1071-1115 | nothing changes; for a frame the answer is Local if and only if the asker owns it, Remote if and only if another owns it live and the asker can see it |
| `BrokerProgram.Broker.DispatchGuarded` | crates/px-broker/src/lib.rs:1051-1064 | a panic closes the channel and is answered Denied; every refusal is recorded |
| `BrokerProgram.Broker.RecordReason` | crates/px-broker/src/lib.rs:931-936 | the log gains the entry at its end and drops its oldest when full |
| `BrokerProgram.Broker.HostsAncestor` | crates/px-broker/src/lib.rs:904-920 | the bounded walk finds a hosted frame above exactly when there is one at any distance |
| `BrokerProgram.Broker.AuthoriseNavigation` | crates/px-broker/src/lib.rs:892-929 | no refusal if and only if the channel is open, the frame live, the URL parses and the channel hosts the frame or one that embeds it at any distance; each reason exactly when its test is the first to fail |
| `BrokerProgram.Broker.DispatchFrame` | crates/px-broker/src/lib.rs:862-888 | the state and response are those of `BrokerState.DispatchFrame`; a navigation is answered authorised if and only if the channel is open and hosts the live frame or one that embeds it, and the URL parses |
| `A11yTree.HeightSpans` | crates/px-a11y/src/tree.rs:520-530 | going down a tree uses up one unit of the height array per level, even where it overestimates |
| `A11yTree.MoveKeepsTree` | crates/px-a11y/src/tree.rs:569-594 | moving a node under one that is not below it leaves one tree rooted at node 0 |
| `A11yTree.MoveKeepsDepth` | crates/px-a11y/src/tree.rs:584-587 | the depth test on the owner and the height of the target keeps every node within the depth cap |
| `A11yTree.WalkUp` | crates/px-a11y/src/tree.rs:569-583 | the walk to the root terminates, notices the target exactly if it is above, and counts the owner's depth |
| `A11yTree.RaiseHeights` | crates/px-a11y/src/tree.rs:597-606 | stopping early still leaves every edge covered, by the least heights that do so without lowering any |
| `A11yTree.TryOwn` | crates/px-a11y/src/tree.rs:563-606 | one request moves its target if and only if the target is not the document, not owned, not above the owner and not too tall; otherwise nothing changes |
| `A11yTree.StructuralHeights` | crates/px-a11y/src/tree.rs:520-530 | the reverse sweep computes the least heights that cover every edge |
| `A11yTree.StructuralKids` | crates/px-a11y/src/tree.rs:512-519 | each list holds exactly the structural children, in creation order |
| `A11yTree.HonourOwns` | crates/px-a11y/src/tree.rs:545-608 | the requests are taken in document order, 64 per owner and 10000 in all, each honoured exactly when it may be; truncation is reported exactly when some are cut off |
| `A11yTree.HonourOne` | crates/px-a11y/src/tree.rs:552-608 | the targets of one owner are taken in order until they or the overall cap run out |
| `A11yTree.RanIsUnique` | crates/px-a11y/src/tree.rs:532-608 | the requests decide the outcome: arrays, accepted requests and depths |
| `A11yTree.FinalLists` | crates/px-a11y/src/tree.rs:610-622 | a final list is the surviving structural children in order, then the owned nodes in order of acceptance |
| `A11yTree.FinalKidsAreChildren` | crates/px-a11y/src/tree.rs:610-622 | a node is in a final list, once, exactly when that node is its parent |
| `A11yTree.SiblingIndices` | crates/px-a11y/src/tree.rs:626-632 | every child's sibling index is its place in its list |
| `A11yTree.Assemble` | crates/px-a11y/src/tree.rs:610-632 | from settled parents, child lists and places that make one tree |
| `A11yTree.Finish` | crates/px-a11y/src/tree.rs:509-652 | for any requests the result is one tree rooted at node 0, each other node once in its parent's list at its sibling index, no node owned twice, depths within the cap if they were, parents as the accepted requests say, and truncated exactly if nodes or requests were cut off |
| `A11yTree.SiblingsAreInverse` | crates/px-a11y/src/tree.rs:284-297 | next and previous sibling undo each other and stay under one parent |
| `A11yOwns.WishIsPlaced` | crates/px-a11y/src/tree.rs:545-558 | requests come in document order of their owners and, for each, in the order written, 64 at most |
| `A11yOwns.WishesAreHonoured` | crates/px-a11y/src/tree.rs:545-608 | the finished tree is the end of a course of the first ten thousand requests in which each is honoured exactly if it is not for the document, its target is not taken, the owner is not at or below the target, and owner depth plus target height is within 1024 |
| `A11yOwns.CourseIsUnique` | crates/px-a11y/src/tree.rs:545-608 | there is one such course, so the rule alone decides who ends up where |
| `A11yOwns.HeightIsReached` | crates/px-a11y/src/tree.rs:520-530 | the heights of the structural tree are exact: some node lies that far below |
| `A11yOwns.FirstHonoured` | crates/px-a11y/src/tree.rs:563-606 | while nothing was honoured, a request is honoured if and only if it makes no cycle, is not for the document and leaves every moved node within 1024 levels |
| `A11yOwns.ChildrenInOrder` | crates/px-a11y/src/tree.rs:610-622 | a child list holds the structural children nobody took in document order, then those taken in the order of taking |
| `A11yWalk.Descendants` | crates/px-a11y/src/tree.rs:301-314 | the explicit stack visits a subtree in document order |
| `A11yWalk.VisitsOnce` | crates/px-a11y/src/tree.rs:299-314 | document order from a node visits each node below it once and no other |
| `A11yWalk.EveryNodeOnce` | crates/px-a11y/src/tree.rs:316-320 | from the root, every node exactly once |
| `A11yWalk.All` | crates/px-a11y/src/tree.rs:316-320 | the whole tree in document order, every node exactly once |
| `A11yOwns.DocumentOrder` | crates/px-a11y/src/tree.rs:299-320 | a node comes before another if and only if it is above it or hangs from an earlier child of a node above both |
| `A11yText.Clean` | crates/px-a11y/src/attr.rs:203-218 | the result is the trimmed text with NUL replaced, whole if it fits 4096 bytes and otherwise cut before the first character that does not fit |
| `A11yText.TrimBetween` | crates/px-a11y/src/attr.rs:206-207 | trimming drops the given characters at both ends, all of them, and nothing else |
| `A11yName.StepWork` | crates/px-a11y/src/accname.rs:358-458 | a step spends nothing, asks for no more work than its stage has left, and raises the reference flag only for a frame that clears it |
| `A11yName.FinishWork` | crates/px-a11y/src/accname.rs:710-764 | finishing a frame resumes its node at a later stage: strictly less work than the frame had |
| `A11yName.TextOfFrame` | crates/px-a11y/src/accname.rs:634-767 | the recursion is well founded on every document and reference graph, and never has more nodes left to enter than before |
| `A11yName.EnterTurn` | crates/px-a11y/src/accname.rs:665-709 | entering a node keeps the machine's answer and bounds, and uses up a node or work |
| `A11yName.FinishTurn` | crates/px-a11y/src/accname.rs:710-764 | finishing the top frame keeps the machine's answer and bounds, and uses up work |
| `A11yName.DispatchKeeps` | crates/px-a11y/src/accname.rs:769-787 | putting a result on the stack keeps at most 2048 frames and the flag raised exactly while one frame that clears it is on the stack |
| `A11yMachine.Computer.Spend` | crates/px-a11y/src/accname.rs:319-326 | a node is charged to both counters, or refused with nothing changed |
| `A11yMachine.Computer.StepFrom` | crates/px-a11y/src/accname.rs:358-458 | the ordered steps of one element from a stage, with the fields they set, as in the recursion |
| `A11yMachine.Computer.EnterNode` | crates/px-a11y/src/accname.rs:335-356 | beginning a node does what the recursion does |
| `A11yMachine.Computer.AdvanceTop` | crates/px-a11y/src/accname.rs:665-703 | the next action of the top frame is that of the recursion |
| `A11yMachine.Computer.FinishTop` | crates/px-a11y/src/accname.rs:710-764 | a finished frame gives its text or resumes its node, as in the recursion |
| `A11yMachine.Computer.DispatchEval` | crates/px-a11y/src/accname.rs:769-787 | a text is returned, a frame pushed, or refused at the cap with its flag cleared |
| `A11yMachine.Computer.Turn` | crates/px-a11y/src/accname.rs:638-766 | one turn keeps the final answer, the bounds and the budget, and makes progress |
| `A11yMachine.Computer.Run` | crates/px-a11y/src/accname.rs:634-767 | the frame machine stops on every document with the text and the final state of the recursion, the shared budget spent once per node entered, at most 4096 of them, and the flag down |
| `A11yMachine.ComputeName` | crates/px-a11y/src/accname.rs:225-249 | the name is the cleaned text of the recursion, its source is none if the text is blank, and at most 4096 of the budget is used |
| `A11yMachine.DescribeBy` | crates/px-a11y/src/accname.rs:262-276 | a description by reference is the recursion over the targets with the reference flag raised |
| `A11yLaws.HiddenLeavesNoTrace` | crates/px-a11y/src/accname.rs:335-356 | two documents that agree on what is hidden and on every readable node, with no reference to a hidden node, give the same name for every budget |
| `A11yLaws.FlatTwice` | crates/px-a11y/src/attr.rs:177-200 | flattening flat text again changes nothing |
| `A11yLaws.LabelsAreRead` | crates/px-a11y/src/accname.rs:665-709 | text nodes named by `aria-labelledby`, hidden or not, are the name, joined by single spaces, before every other source, at one unit of the budget each |
| `A11yLaws.HiddenLabelIsRead` | crates/px-a11y/src/accname.rs:694-700 | a hidden text node that is the only label of a readable root is the name, from the author, for every budget of at least 2 |
| `A11yLaws.DescriptionIsRead` | crates/px-a11y/src/accname.rs:262-276 | a description by reference is the joined texts of its targets, hidden or not |
| `A11yLaws.LabelNames` | crates/px-a11y/src/accname.rs:358-458 | without references, `aria-label` is the name whatever else there is |
| `A11yLaws.CandidateNames` | crates/px-a11y/src/accname.rs:358-458 | without those, the first usable text of the host language is, with its own source |
| `A11yContent.VisibleTextNames` | crates/px-a11y/src/accname.rs:437-458 | without those, and for a role named from content, the name is the visible text of the tree below in document order, blocks set off by spaces, at one unit of the budget for each node read; over any tree of plain elements and text within the caps |
| `A11yContent.PieceIsRead` | crates/px-a11y/src/accname.rs:634-767 | entering any such tree gives its visible text, or all of it where hidden content is read in full, and charges exactly the nodes reached |
| `A11yContent.LabelIsReadInFull` | crates/px-a11y/src/accname.rs:694-700 | an element that is the only label of a readable root is read with everything below it if it is hidden, and without its hidden parts if not |
| `A11yLaws.TooltipNames` | crates/px-a11y/src/accname.rs:358-458 | and with no content to read, the tooltip is |
| `A11yLaws.UnreadableIsNameless` | crates/px-a11y/src/accname.rs:343-346 | a hidden root that nothing references has no name |
| `A11yLaws.BlocksAreSpaced` | crates/px-a11y/src/accname.rs:665-690 | a child that gives its own text is set off by spaces on both sides if it is a block and runs on otherwise |
| `A11yLaws.RefsAreNotChained` | crates/px-a11y/src/accname.rs:358-372 | while references are read, the references of a target are not followed |
| `A11yWire.QuietMeansSame` | crates/px-a11y/src/diff.rs:139-204 | nothing is reported for a node if and only if it was there and parent, children, role, name, description, states, props and bounds are equal |
| `A11yWire.Diff` | crates/px-a11y/src/diff.rs:128-205 | removals in the old document order, then each node's changes in the new one |
| `A11yWire.DiffMeans` | crates/px-a11y/src/diff.rs:126-205 | a difference removes exactly the keys that are gone and mentions exactly the nodes that are new or differ |
| `A11yReport.ReportIsTrue` | crates/px-a11y/src/diff.rs:126-205 | a difference reports exactly the changes that are true of the two trees, each with the value the node had and the value it has |
| `A11yReport.ReportIsOrdered` | crates/px-a11y/src/diff.rs:126-205 | of any two changes reported, removals come before the rest and in the old document order, the rest in the new one and those of one node in the fixed order of fields; so none comes twice |
| `A11yWire.NodeError` | crates/px-a11y/src/wire.rs:118-147 | the reason is that of the first test that fails, in the order key, parent, strings, numbers |
| `A11yWire.NodePasses` | crates/px-a11y/src/wire.rs:118-147 | no test fails exactly for a node with non-zero keys, clean strings and finite numbers |
| `A11yWire.FirstFailingIs` | crates/px-a11y/src/wire.rs:150-154 | a reason is given if and only if its test fails and no earlier one does |
| `A11yWire.Validate` | crates/px-a11y/src/wire.rs:155-192 | the reason is that of the first limit the update breaks, the whole first and then node by node; there is none if and only if every limit is met |
| `A11yWire.PartsConcatenate` | crates/px-a11y/src/wire.rs:254-284 | the first k parts carry the front of both lists |
| `A11yWire.SplitIsLossless` | crates/px-a11y/src/wire.rs:254-284 | the parts concatenate to the full lists if and only if both fit under the cap of 1024 parts |
| `A11yWire.FewestParts` | crates/px-a11y/src/wire.rs:254-284 | with any fewer parts one list would not fit, and there are at most 1024 |
| `A11yUpdate.ApplyIsOnce` | crates/px-a11y/src/wire.rs:81-87 | applying the parts one by one is removing all removed keys and then upserting all nodes |
| `A11yUpdate.PartsPass` | crates/px-a11y/src/wire.rs:254-284 | every part of a split of good, distinct nodes passes the receiver's gate |
| `A11yUpdate.MakeSnapshot` | crates/px-a11y/src/wire.rs:194-207 | the numbered snapshot parts, the first naming the root, carry the nodes in document order and pass the gate; a receiver that applies them holds exactly the tree |
| `A11yUpdate.ChildListsComeBack` | crates/px-a11y/src/wire.rs:236-252 | from a held snapshot every child list can be rebuilt in order, in only one way |
| `A11yCollect.Collect` | crates/px-a11y/src/wire.rs:213-226 | the pass yields the removed keys as they come and each other key where it first comes |
| `A11yCollect.UpdatesTouched` | crates/px-a11y/src/wire.rs:213-226 | of the changes of a difference, the keys collected are the touched ones, in the new document order |
| `A11yCollect.RemovalsGone` | crates/px-a11y/src/wire.rs:213-226 | and the removed ones are those that are gone, in the old document order |
| `A11yDelta.MakeDelta` | crates/px-a11y/src/wire.rs:209-233 | the numbered delta parts pass the gate and together carry each touched node of the new tree once, in its document order, and exactly the keys that went away, in the old document order |
| `A11yDelta.DeltaYieldsNew` | crates/px-a11y/src/wire.rs:209-233 | a receiver holding the old tree ends with the new tree's keys, each with the right parent, role, name, description, states, props and bounds |
| `A11yDelta.DeltaIsExactWhen` | crates/px-a11y/src/wire.rs:209-252 | it holds the new tree exactly if and only if every node the differ finds unchanged kept its sibling index and tab index |
| `A11yDelta.ChildListAfterDelta` | crates/px-a11y/src/wire.rs:209-252 | after a delta a child list of the new tree can be rebuilt if and only if every child the differ finds unchanged kept its sibling index |
| `A11yDelta.StaleIndex` | crates/px-a11y/src/wire.rs:209-252 | for a concrete pair of trees, applying the delta to a receiver of the old one leaves an index of 1 where the new tree has 0 |
| `A11yDelta.SwapIsLost` | crates/px-a11y/src/wire.rs:209-252 | for a concrete swap of two children, the receiver of the delta goes on rebuilding the old order |
| `IdlTypes.FlattenedMembers` | crates/px-bindings/src/resolve.rs:106-116 | the stack loop yields the recursive left-to-right flattening |
| `IdlTypes.CheckOneUnion` | crates/px-bindings/src/resolve.rs:936-969 | one union passes if and only if its flattened members have at most one nullable, no any, promise or undefined, no two that clash by kind (two dictionary-like, sequence-like, numeric, string, callback or equal primitive types, or the same interface or buffer), and no dictionary beside a nullable |
| `IdlTypes.CheckUnion` | crates/px-bindings/src/resolve.rs:923-974 | a type passes if and only if every union at or below it does |
| `IdlTypes.ClashIsCategory` | crates/px-bindings/src/resolve.rs:1568-1587 | two kinds a union may have are of one category exactly if they clash by kind |
| `IdlTypes.UnionOkMeans` | crates/px-bindings/src/resolve.rs:936-969 | the check by categories is the check kind by kind |
| `IdlDistinct.AcceptedMeans` | crates/px-bindings/src/resolve.rs:923-974 | a type is accepted if and only if every union in it, at any depth, keeps the rules on kinds |
| `IdlTypes.StepsAscend` | crates/px-bindings/src/ir.rs:400-467 | conversion steps are in the order of section 3.2.24 of Web IDL, none empty |
| `IdlTypes.MemberIsPicked` | crates/px-bindings/src/ir.rs:400-467 | in an accepted union the step of a member's kind carries that member, though some steps carry only one |
| `IdlTypes.AcceptedUnionIsCovered` | crates/px-bindings/src/ir.rs:373-467 | for an accepted union the full step list has each flattened member in exactly one step, of its own kind, all indices in range, in order, after the step for null and undefined |
| `IdlTypes.AcceptedTypeCovers` | crates/px-bindings/src/ir.rs:324-397 | the same of the step list of every union at any depth of an accepted type |
| `IdlConv.EmittedUnionsCover` | crates/px-bindings/src/ir.rs:324-467 | every union anywhere in the conversion emitted for an accepted type has each of its members in exactly one step |
| `IdlDistinct.StepsByRank` | crates/px-bindings/src/ir.rs:400-467 | of two members the one whose kind comes first in section 3.2.24 of Web IDL is looked at by the earlier step |
| `IdlDistinct.NullishWhen` | crates/px-bindings/src/ir.rs:400-467 | null and undefined are looked at first exactly if null is accepted or a dictionary is a member |
| `IdlDistinct.OneMemberSteps` | crates/px-bindings/src/ir.rs:400-467 | every conversion step of an accepted union other than those for interfaces and buffers carries exactly one member |
| `IdlDistinct.ConversionComesBack` | crates/px-bindings/src/ir.rs:324-397 | a type without unions can be read back from its conversion |
| `IdlDistinct.UnionComesBack` | crates/px-bindings/src/ir.rs:373-397 | of a union the flattened members can be read back without their question marks, and null is accepted exactly if the union or a member had one |
| `IdlNullable.ConvNullable` | crates/px-bindings/src/ir.rs:373-397 | a conversion accepts null if and only if the type or a flattened member is nullable |
| `IdlNullable.ConvNullableAgrees` | crates/px-bindings/src/ir.rs:373-397 | that is Web IDL's "includes a nullable type" if and only if something flattening shows is nullable or no nested union is |
| `IdlNullable.CheckedNullRulesAgree` | crates/px-bindings/src/resolve.rs:936-969 | the check refuses no union that Web IDL's nullability rules allow, and agrees with them exactly under a condition on the nullables in sight, the hidden ones and dictionaries |
| `IdlNullable.NullIsLost` | crates/px-bindings/src/ir.rs:373-397 | an accepted type that includes a nullable type and whose conversion refuses null |
| `IdlNullable.DictionaryBesideNull` | crates/px-bindings/src/resolve.rs:936-969 | an accepted type with a nullable type beside a dictionary |
| `IdlCycles.InlineNames` | crates/px-bindings/src/resolve.rs:1493-1501 | the loop lists exactly the dictionaries a type holds inline, through unions |
| `IdlCycles.InlineDeps` | crates/px-bindings/src/resolve.rs:1488-1503 | exactly the dictionaries a dictionary inherits or holds inline |
| `IdlCycles.BackEdgeIsCycle` | crates/px-bindings/src/resolve.rs:1521-1530 | a dependency that is on the stack closes a cycle through it |
| `IdlCycles.OrderedMeansNoCycle` | crates/px-bindings/src/resolve.rs:1487-1546 | if everything is finished and depends only on what finished before, there is no cycle |
| `IdlCycles.LayoutMeansNoCycle` | crates/px-bindings/src/resolve.rs:1484-1487 | if finite sizes fit every dictionary, none contains itself |
| `IdlCycles.OrderedMeansLayout` | crates/px-bindings/src/resolve.rs:1487-1546 | dictionaries that finished in order can be given finite sizes |
| `IdlCycles.Turn` | crates/px-bindings/src/resolve.rs:1513-1543 | a turn of the search keeps its invariant and makes progress on every graph |
| `IdlCycles.CheckDictionaryCycles` | crates/px-bindings/src/resolve.rs:1487-1546 | an error is reported if and only if some dictionary contains itself through inheritance, members or unions, and none if and only if finite sizes fit every dictionary; each error names the last step of a cycle |
| `IdlInherit.WalkFails` | crates/px-bindings/src/resolve.rs:1426-1440 | meeting the starting name again, or a 257th name, means the unbounded chain is not within the cap |
| `IdlInherit.CheckContainer` | crates/px-bindings/src/resolve.rs:1404-1441 | an interface passes if and only if its chain is finite with at most 256 ancestors, its parent is an interface, and its exposure is within the parent's |
| `IdlInherit.CheckDict` | crates/px-bindings/src/resolve.rs:1442-1482 | a dictionary passes if and only if its parent is a dictionary, its chain is finite with at most 256 ancestors, and it repeats no inherited member |
| `IdlInherit.CheckInheritance` | crates/px-bindings/src/resolve.rs:1403-1483 | the check passes if and only if every interface and dictionary does |
| `IdlInherit.Ancestors` | crates/px-bindings/src/resolve.rs:381-393 | in an accepted model the capped walk returns the whole chain, nearest first |
| `IdlInherit.DictionaryHasRequired` | crates/px-bindings/src/ir.rs:554-571 | in an accepted model the capped walk finds a required member if and only if the dictionary or some ancestor has one |
| `IdlInherit.Lineage` | crates/px-bindings/src/ir.rs:865-874 | in an accepted model the capped walk returns the dictionary and all its ancestors |
| `IdlInherit.OwnersDistinct` | crates/px-bindings/src/ir.rs:865-875 | a lineage repeats no dictionary |
| `IdlInherit.OrderMembers` | crates/px-bindings/src/ir.rs:876-889 | least-derived dictionary first and by name within one, every member exactly once; the required flag is the disjunction over all |
| `IdlInherit.LowerDictionary` | crates/px-bindings/src/ir.rs:864-897 | the conversion order of section 3.2.17 of Web IDL lists every own and inherited member exactly once |

## Left out

- A11yTree.Finish: does not model `set_positions`, which numbers siblings of one role after the tree is built, because it reads the finished lists and changes none of them.
- IdlInherit.CheckInheritance: models whether an error is reported, not the list of messages with their spans.
- IdlTypes.CheckUnion: models whether an error is reported, not the list of messages with their spans.
- Parsing of filter lists and options (`from_text`, `parse_list`), and the list names and line numbers kept with a rule: long, branchy and easy per branch.
- Type extension attributes (`[Clamp]`, `[AllowShared]` and the like), default values, overloads and the text that is emitted: they do not interact with the union and inheritance results.
- Role, state and HTML tables of `px-a11y`: candidates, roles and tooltips are arbitrary data per element in the model; `tab_order` would only add easy members.
- The host-language fallbacks of `description` (caption, button value, title): easy case splits around the same machine.
- The process that receives accessibility updates is not part of the repository; the model's receiver deletes the removed keys of a part and then upserts its nodes, as the update types describe.
- The walk that creates accessibility nodes is represented by its result, parents created before children.
- Update in place of the vectors inside `Builder::finish` is modelled by sequence variables that the loops reassign, so aliasing is not an issue that the model could show.
- `HashMap` and `HashSet` iteration order: wherever it could matter the loops pick elements in any order.
- `ContentProcess`, `serve_once`, threads, pipes, timeouts and process spawning around the broker; a panic in dispatch is a flag of the request.
- The check that a URL parses, the public-suffix lookup behind a process key, and bounds, roles and states of nodes are parameters or opaque values.
- `isolation.rs`, `referrer.rs`, `cname.rs`, `params.rs`, `stats.rs`, `watchdog.rs`: small; they would only add easy members.
