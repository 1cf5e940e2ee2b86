# Verified models of the device tree's core algorithms

Seven pieces of self-contained code of this device tree, modelled in Dafny and proved correct, or
proved correct exactly as far as they are:

- **Boyer-Moore search** of the recovery updater (`BoyerMoore`). The two tables, the skip loop, and
  the exact class of patterns for which the search returns the leftmost occurrence.
- **Timer service** (`HeapTree`, `LocHeap`, `LocTimer`, `TimerProtocol`, `TimerEffects`,
  `EarlyCallbacks`). The size-guided heap of linked nodes, the ranking of timers, the expiry loop, and
  the protocol of client threads, message task and poll thread as a state machine with a clock, whose
  steps interleave freely.
- **UTF-8/UTF-16 conversion** (`Utf8to16`, `Utf16to8`, `Utf8Standard`, `Utf8Cases`). The byte-at-a-time
  length counter against the sequence decoder, the round trip over all 16-bit units, saturating lengths,
  agreement with RFC 3629 and RFC 2781, and what every malformed sequence becomes.
- **AGPS connection state machine** (`AgpsModel`, `AgpsEffects`, `Agps`). What the state says about the
  subscriber list and the data connection, what each event brings about, and conservation of
  subscriptions, over all event sequences.
- **Tracking multiplexer** (`Tracking`). Incremental restarts of one engine refine "the engine runs at
  the smallest interval of all sessions".
- **Subscription index** (`SetMap`, `Subscriptions`, `SubscriptionEffects`, `OsObserver`). Two maps that
  stay inverse to each other, what the framework is told and holds, what is cached, and what clients have
  been told.
- **Doubly linked list** (`LinkedList`). Pointer chains, search-and-unlink, and the order in which
  elements leave.

Code that changes state in place is modelled as classes and methods over arrays, fields and linked
nodes; each method is proved against a function or relation on values, and the main results are lemmas
about those. A `Run`, `Execute`, `IsRun` or `Fold` ranges over every sequence of events, and `RunMachine`,
`RunAdapter`, `RunObserver` and `RunList` run the objects and reach the states that those say.

## Where the code does not do what it seems to

The model follows the code. For the branch that is never taken there is a lemma over all runs; each other
point has a lemma with an input that shows it and one that says exactly when the code does what one would
expect.

- **The prefix test of `bm_make_delta2`** compares the suffix that starts at `p` and records `p + 1`
  (recovery/recovery_updater.cpp:83-84). So the search misses occurrences for some patterns: it finds
  no "aba" in "acaba" (`AbaMissedInAcaba`). It returns the leftmost occurrence in every text if and
  only if no proper suffix of the pattern is also a prefix, or all its characters are equal
  (`SearchCorrectIff`). The one pattern in use qualifies (`ModemVersionSearchCorrect`).
- **Timers rank by a 32-bit difference of seconds** (gps/utils/LocTimer.cpp:515). `RanksEarlierIffFits`
  says for which differences the ranking is "due earlier"; for those below 2^32 it is when they fit in an
  `int`. Beyond that three timers can rank in a cycle (`RanksCycleBeyondInt`).
- **Timers can be called back before they are due**, in two ways (`CallBackEarlyIff`). An expiry takes
  the first timer without a look at its time (gps/utils/LocTimer.cpp:370), so one that comes when nothing
  in the heap is due calls the next timer early; two expiries can be queued for one time without any timer
  being stopped (`SecondExpiryCallsEarly`). And an expiry reads the popped timer's client without the lock
  and then stops whatever that client runs (gps/utils/LocTimer.cpp:530-536): a client that stops and
  starts again in between has its new timer stopped and called back (`RestartedIsCalledEarly`).
- **The disarming branch of `updateSoonestTime`** (gps/utils/LocTimer.cpp:292-298) is never taken
  (`NeverDisarms`): a caller that may leave the heap empty passes NULL as the prior top. The kernel
  timer then stays set and an extra expiry comes.
- **The decoder's upper limit** is 0x10FFFD (libshims/strdup8to16.cpp:37), so the last two code points
  become the replacement character (`UnitsAreStandard`): standard UTF-8 decodes to standard UTF-16 if and
  only if neither occurs (`DecodesStandardIff`).
- **`restartSessions` drops the engine's answer** (gps/gnss/GnssAdapter.cpp:1244). An engine that refuses
  when it comes up idles while there are sessions (`StrandedRun`), until it next accepts a call; otherwise
  it always runs as the sessions need (`EngineRunsAtMinimumIff`).
- **A modem restart empties the AGPS subscriber list but leaves the state**
  (gps/gnss/Agps.cpp:502-513), so PENDING and RELEASING may have no subscriber (`RestartLeavesNobody`).
  Which subscribers there are in each state is exact in `ListedIff`.
- **A subscription object given a second time** to `setSubscriptionObj` may be told to subscribe what it
  already holds (`DoubleWhenGivenTwice`) or be left with items nobody wants (`StaleWhenGivenAgain`). All
  goes well in a run if and only if each object given is new or nothing was wanted when it was last the
  current one (`FrameworkHoldsWhatIsWantedIff`).

The comment on `mSize` says that it excludes the node itself (gps/utils/LocHeap.cpp:34-35); the code counts
the node, and so does the model.

## Model

| member | source | states |
|---|---|---|
| BoyerMoore.SearchCorrectIff | recovery/recovery_updater.cpp:77-125 | the search returns the leftmost occurrence (or none when there is none) in every text if and only if the pattern is unbordered or constant |
| BoyerMoore.SearchFindsFirst | recovery/recovery_updater.cpp:111-124 | for such patterns no occurrence before the reported one, and none at all when nothing is reported |
| BoyerMoore.SearchSound | recovery/recovery_updater.cpp:118-120 | for any pattern, a reported position is an occurrence |
| BoyerMoore.SearchMisses | recovery/recovery_updater.cpp:81-87 | for every bordered pattern that is not constant there is a text in which the search fails to return the leftmost occurrence |
| BoyerMoore.OvershootAtOne | recovery/recovery_updater.cpp:83-86 | for those patterns entry 1 of the good-suffix table moves one further than the least border, because of the recorded `p + 1` |
| BoyerMoore.AbaMissedInAcaba | recovery/recovery_updater.cpp:83-86 | the search for "aba" in "acaba" reports nothing |
| BoyerMoore.ModemVersionSearchCorrect | recovery/recovery_updater.cpp:45-45 | the modem version marker is always found where it first occurs |
| BoyerMoore.Delta1Safe | recovery/recovery_updater.cpp:62-74 | the bad-character table never moves past an occurrence |
| BoyerMoore.SuffixShiftSafe | recovery/recovery_updater.cpp:76-96 | for unbordered and constant patterns neither does the good-suffix table |
| BoyerMoore.NothingSkipped | recovery/recovery_updater.cpp:121-121 | no alignment stepped over after a mismatch is an occurrence, whichever table decides |
| BoyerMoore.PrefixTest | recovery/recovery_updater.cpp:83-83 | the `strncmp` test holds exactly when the suffix at `p` is a prefix of the pattern, although `strncmp` stops at NUL |
| BoyerMoore.MaxSuffixLen | recovery/recovery_updater.cpp:51-60 | the longest agreement with the pattern's end ending at `p`, but at most `p` |
| BoyerMoore.MakeDelta1 | recovery/recovery_updater.cpp:65-74 | fills the table from rightmost positions, the last character of the pattern left out |
| BoyerMoore.FillPrefixShifts | recovery/recovery_updater.cpp:79-87 | the first loop: each entry as far as borders determine it |
| BoyerMoore.RecordRefits | recovery/recovery_updater.cpp:89-95 | the second loop leaves at each entry the least move that refits the matched suffix, if there is one |
| BoyerMoore.MakeDelta2 | recovery/recovery_updater.cpp:77-96 | fills the good-suffix table |
| BoyerMoore.Delta1Moves | recovery/recovery_updater.cpp:65-74 | the bad-character entry is the distance of the rightmost such character from the end, the last character of the pattern left out, and the length if there is none |
| BoyerMoore.SuffixMoves | recovery/recovery_updater.cpp:77-96 | the good-suffix move is the least refit; without one, one past the least border; without that, one less than the length |
| BoyerMoore.SearchMoves | recovery/recovery_updater.cpp:113-121 | after a mismatch the search goes on by exactly the larger of the two moves |
| BoyerMoore.MatchBackward | recovery/recovery_updater.cpp:114-117 | stops at the rightmost mismatch of the alignment, or before its start |
| BoyerMoore.BmSearch | recovery/recovery_updater.cpp:98-125 | terminates, stays within the text and within `int`, and computes the search the results above are about |
| LocHeap.LocHeapNode.constructor | gps/utils/LocHeap.cpp:40-41 | a single node of size 1 |
| LocHeap.LocHeapNode.Push | gps/utils/LocHeap.cpp:107-124 | does to the linked nodes what the push on trees does, adding exactly the given node |
| LocHeap.LocHeapNode.PushBelow | gps/utils/LocHeap.cpp:114-121 | the node goes to the first free place or the smaller subtree; the other subtree is untouched |
| LocHeap.LocHeapNode.Pop | gps/utils/LocHeap.cpp:134-164 | detaches a node holding the old top's data; the rest is the tree's pop |
| LocHeap.LocHeapNode.SwapAndPop | gps/utils/LocHeap.cpp:148-154 | the child's data moves up and the old top's data is popped from the child's subtree |
| LocHeap.LocHeapNode.Remove | gps/utils/LocHeap.cpp:170-193 | detaches a node exactly when the pruned search reaches the data, and that node then holds it; otherwise nothing changes |
| LocHeap.LocHeapNode.RemoveBelow | gps/utils/LocHeap.cpp:178-184 | the right subtree is searched only if the left one had no such data |
| LocHeap.LocHeapNode.CheckNodes | gps/utils/LocHeap.cpp:197-220 | true exactly when all sizes are right and heap order holds at every node |
| LocHeap.LocHeap.constructor | gps/utils/LocHeap.h:63-63 | an empty heap |
| LocHeap.LocHeap.Push | gps/utils/LocHeap.cpp:228-235 | adds exactly the one element and keeps the heap correct |
| LocHeap.LocHeap.Peek | gps/utils/LocHeap.cpp:237-243 | a maximal element, none exactly when the heap is empty |
| LocHeap.LocHeap.Pop | gps/utils/LocHeap.cpp:245-254 | takes out a maximal element and nothing else |
| LocHeap.LocHeap.Remove | gps/utils/LocHeap.cpp:256-267 | takes out the given element and succeeds exactly when it is present |
| LocHeap.LocHeap.GetTreeSize | gps/utils/LocHeap.cpp:273-275 | the stored size of the top is the number of elements in the heap |
| LocHeap.LocHeap.CheckTree | gps/utils/LocHeap.cpp:270-272 | the consistency check always succeeds |
| HeapTree.PushKeepsHeap | gps/utils/LocHeap.cpp:107-124 | heap order survives a push under any total preorder, and the top is the higher of the two |
| HeapTree.PushAddsOne | gps/utils/LocHeap.cpp:107-124 | the elements after a push are those before and the new one |
| HeapTree.PushCounts | gps/utils/LocHeap.cpp:107-124 | stored sizes stay exact |
| HeapTree.PushPlaces | gps/utils/LocHeap.cpp:107-124 | the lower of the new element and the old top goes left if the left subtree is empty or no larger than a right one that is not, else right; the other subtree is untouched |
| HeapTree.PopKeepsHeap | gps/utils/LocHeap.cpp:134-164 | heap order survives a pop, and nothing left ranks above what was popped |
| HeapTree.PopTakesTop | gps/utils/LocHeap.cpp:134-164 | exactly the top's data leaves |
| HeapTree.PopCounts | gps/utils/LocHeap.cpp:134-164 | stored sizes stay exact |
| HeapTree.PopPromotes | gps/utils/LocHeap.cpp:148-154 | the left child's data moves up if it stands alone or ranks strictly above the right one's, else the right one's; that subtree loses it and the other is untouched |
| HeapTree.TopIsMaximal | gps/utils/LocHeap.cpp:237-243 | nothing in a heap ranks above its top |
| HeapTree.FindsIffPresent | gps/utils/LocHeap.cpp:170-193 | the search that skips subtrees by rank reaches its target exactly when that is in the heap |
| HeapTree.RemoveSkips | gps/utils/LocHeap.cpp:173-176 | nothing is looked for below a top that the target out-ranks |
| HeapTree.RemoveKeepsHeap | gps/utils/LocHeap.cpp:170-193 | heap order survives a removal |
| HeapTree.RemoveTakesOne | gps/utils/LocHeap.cpp:170-193 | exactly the element found leaves, even from a tree not in heap order |
| HeapTree.RemoveCounts | gps/utils/LocHeap.cpp:170-193 | stored sizes stay exact |
| HeapTree.SizedCounts | gps/utils/LocHeap.cpp:34-35 | an exact stored size is the number of elements, the node's own included |
| HeapTree.DrainSorts | gps/utils/LocHeap.cpp:245-254 | popping until empty yields every element, in rank order |
| HeapTree.PushKeepsBalance | gps/utils/LocHeap.cpp:114-121 | a push keeps left minus right size in {0,1} at every node |
| HeapTree.BalancedIsShallow | gps/utils/LocHeap.cpp:107-124 | such a tree of n nodes and height h has 2^(h-1) <= n < 2^h |
| HeapTree.PushesStayShallow | gps/utils/LocHeap.cpp:107-124 | a heap built by pushes alone is balanced, so its height is logarithmic |
| LocTimer.RanksEarlierIffFits | gps/utils/LocTimer.cpp:509-523 | for seconds of any width, exactly when a timer out-ranks another because it is due earlier; for differences below 2^32, when they fit in an `int` |
| LocTimer.RanksCycleBeyondInt | gps/utils/LocTimer.cpp:515-515 | beyond that the ranking has a cycle of three |
| LocTimer.TimersArePreordered | gps/utils/LocTimer.cpp:509-523 | within that the ranking is a total preorder, as the heap needs |
| LocTimer.FutureTime | gps/utils/LocTimer.cpp:557-564 | the due time is normalised and exactly the delay after now |
| LocTimer.PopIfOutRanks | gps/utils/LocTimer.cpp:387-394 | pops the earliest timer if it is due; if it pops none, everything left is strictly later than now |
| LocTimer.HandleExpire | gps/utils/LocTimer.cpp:363-377 | takes timers in non-decreasing time order starting with the earliest, everything left is strictly later than now, nothing is lost, and all those taken are due if and only if the heap was empty or some timer in it was due |
| LocTimer.AllDueIffSomeDue | gps/utils/LocTimer.cpp:370-372 | because only the first one is taken unchecked, all taken are due exactly if something in the heap was, or nothing was there |
| LocTimer.TakeNext | gps/utils/LocTimer.cpp:370-375 | taking one more maximal timer keeps what was taken in rank order and ahead of the rest |
| LocTimer.TakenInOrder | gps/utils/LocTimer.cpp:370-375 | rank order is time order, and the first one taken was the earliest of all |
| TimerProtocol.Invariant | gps/utils/LocTimer.cpp:283-385 | in every reachable state the heap is in order, each timer's bookkeeping adds up, and a wake-up is assured |
| TimerProtocol.NoTimerLost | gps/utils/LocTimer.cpp:283-385 | a non-empty heap is armed at its earliest time and polled, or a wake-up is under way; each running timer is queued, in the heap or being fired; at rest the kernel timer is set no later than any of them |
| TimerProtocol.WakesAfterStep | gps/utils/LocTimer.cpp:429-475 | every step of every party keeps the assurance of a wake-up |
| TimerProtocol.DeletedOnceAndForGood | gps/utils/LocTimer.cpp:331-353 | a delegate is deleted at most once, only after it was stopped, and then nothing refers to it; with an empty queue all stopped ones are deleted |
| TimerProtocol.CallBackOnlyIfExpiryStopped | gps/utils/LocTimer.cpp:525-591 | each start has at most one successful stop, and the callback runs once if expiring made it and never if a client did |
| TimerProtocol.FiringStopsTheFiredTimer | gps/utils/LocTimer.cpp:525-591 | the stop and the callback hit the timer the client runs: the popped one exactly if that still runs, and otherwise one started since its client was read without the lock; with none running, neither happens |
| TimerProtocol.CallBackEarlyIff | gps/utils/LocTimer.cpp:358-394 | in every run, a timer is called back before it is due if and only if it was the first that an expiry popped and nothing in the heap was due then, or it was started between the read of the popped timer's client and the stop, with a delay or past the time the expiry read; measured by that time, and by the clock if it stood still, with no other early ones if it went on |
| TimerProtocol.PopsDue | gps/utils/LocTimer.cpp:370-394 | the first pop takes a timer that is not due exactly when nothing in the heap is, and the checked pops never do |
| TimerProtocol.TopDueIffSomeDue | gps/utils/LocTimer.cpp:387-394 | the top of a heap is due exactly if anything in it is |
| TimerProtocol.TimelyAfterStep | gps/utils/LocTimer.cpp:358-394 | every step keeps that a popped timer is due unless it was the first pop and nothing was due, and that the client of a timer being fired runs that timer or one started since |
| EarlyCallbacks.SecondExpiryCallsEarly | gps/utils/LocTimer.cpp:370-374 | a run without any stop by a client in which two expiries are queued and the second calls back at 10 a timer due at 20 |
| EarlyCallbacks.RestartedIsCalledEarly | gps/utils/LocTimer.cpp:525-538 | a run in which a client restarted while its timer is fired has the new one, due at 50 and never popped, called back at 10 |
| TimerProtocol.TrackedAfterStep | gps/utils/LocTimer.cpp:479-507 | every step keeps each delegate in exactly one place from start to deletion |
| TimerProtocol.LinkedAfterStep | gps/utils/LocTimer.cpp:479-507 | every step keeps clients and delegates pointing at each other |
| TimerProtocol.NeverDisarms | gps/utils/LocTimer.cpp:283-309 | no reachable state has the disarming system call ahead of it |
| TimerEffects.PushSetsKernelIff | gps/utils/LocTimer.cpp:313-328 | a new timer registers and sets the kernel timer exactly if it is earlier than all others |
| TimerEffects.RemoveSetsKernelIff | gps/utils/LocTimer.cpp:331-353 | a removal does so exactly if it takes out the top and others are left, to the earliest of those |
| TimerEffects.ExpiryEndsIff | gps/utils/LocTimer.cpp:370-376 | an expiry ends exactly when the heap is empty or, past its first pop, nothing is due, and then sets the kernel timer to the earliest left; otherwise it takes the earliest |
| TimerEffects.PollRaisesExpiry | gps/utils/LocTimer.cpp:380-384 | the poll thread disarms and unregisters the kernel timer and queues one expiry |
| TimerEffects.NeverStuck | gps/utils/LocTimer.cpp:283-475 | unless all is at rest, the service can take a step of its own |
| TimerEffects.DueTimerWakes | gps/utils/LocTimer.cpp:450-475 | at rest, a running timer whose time has come makes the poll thread wake |
| Utf8to16.StrLen8to16 | libshims/strdup8to16.cpp:69-100 | counts the units without reading past the terminator |
| Utf8to16.GetUtf32FromUtf8 | libshims/strdup8to16.cpp:113-144 | reads the next sequence, which `Utf8Cases` gives in numbers, and never steps over the terminator |
| Utf8to16.PutUnits | libshims/strdup8to16.cpp:162-172 | writes one or two units and nothing else |
| Utf8to16.StrCpy8to16 | libshims/strdup8to16.cpp:152-178 | writes the decoded string within a destination of the counted length and leaves the rest of it alone |
| Utf8to16.StrDup8to16 | libshims/strdup8to16.cpp:44-61 | the allocated buffer always suffices; NULL exactly for a NULL input or a size that overflows |
| Utf8to16.LengthCovers | libshims/strdup8to16.cpp:69-178 | for every byte string the counted length exceeds the decoded one by exactly the number of 4-byte leads that are cut short, overlong or above the limit |
| Utf8to16.BadFourByteLeadIff | libshims/strdup8to16.cpp:136-172 | those are exactly the 4-byte leads that decode to a single unit |
| Utf8to16.SeqLengthTable | libshims/strdup8to16.cpp:30-31 | the 2-bit table packed into a constant is the usual sequence length by lead byte |
| Utf8to16.NextOfWhole | libshims/strdup8to16.cpp:128-143 | a lead with all its extension bytes is read as one sequence whose bits are put together in order |
| Utf8Cases.DecodeStray | libshims/strdup8to16.cpp:122-126 | a stray extension byte becomes U+FFFD, and only it |
| Utf8Cases.DecodeCutShort | libshims/strdup8to16.cpp:128-141 | a lead with too few extension bytes becomes one U+FFFD together with those it has |
| Utf8Cases.DecodeOne | libshims/strdup8to16.cpp:128-143 | a byte below 0x80 decodes to itself |
| Utf8Cases.DecodeTwo | libshims/strdup8to16.cpp:128-143 | two bytes decode to the unit of their 5 and 6 bits, overlong or not |
| Utf8Cases.DecodeThree | libshims/strdup8to16.cpp:128-143 | three bytes decode to the unit of their 4, 6 and 6 bits, surrogates included |
| Utf8Cases.DecodeFour | libshims/strdup8to16.cpp:128-172 | four bytes decode to one unit for a number up to 0xFFFF, to the standard's pair up to 0x10FFFD, and to U+FFFD above |
| Utf16to8.StrNLen16to8 | libshims/strdup16to8.cpp:29-94 | the encoded length, capped at SIZE_MAX - 1, on the fast path and on the checked one |
| Utf16to8.StrNCpy16to8 | libshims/strdup16to8.cpp:109-140 | writes the encoding and a NUL, and nothing after it |
| Utf16to8.StrNDup16to8 | libshims/strdup16to8.cpp:146-168 | NULL exactly for a NULL input, a length of at least SIZE_MAX - 1 or a failed allocation; otherwise the buffer is filled exactly |
| Utf16to8.EncodeHasNoNul | libshims/strdup16to8.cpp:109-140 | the encoding of any units, zeros included, has no inner NUL |
| Utf16to8.UnitReadsBack | libshims/strdup16to8.cpp:121-134 | every one of the 65536 units is read back from its encoding |
| Utf16to8.DecodeEncode | libshims/strdup16to8.cpp:109-140 | decoding an encoding gives back every sequence of units, unpaired surrogates included |
| Utf16to8.RoundTrip | libshims/strdup16to8.cpp:109-140 | and the length counter agrees with the number of units |
| Utf8Cases.EncodesStandard | libshims/strdup16to8.cpp:121-129 | a unit that is a scalar value is encoded as in section 3 of RFC 3629 |
| Utf8Cases.EncodesOthers | libshims/strdup16to8.cpp:121-127 | zero is encoded as C0 80 and a surrogate on its own in the three bytes of its number |
| Utf8Standard.ScalarReadsBack | libshims/strdup8to16.cpp:113-143 | every scalar value in UTF-8 per section 3 of RFC 3629 is read back |
| Utf8Standard.UnitsAreStandard | libshims/strdup8to16.cpp:162-172 | units are those of section 2.1 of RFC 2781 up to the limit, and one replacement character above it |
| Utf8Standard.DecodesStandardIff | libshims/strdup8to16.cpp:113-178 | standard UTF-8 decodes to standard UTF-16 if and only if no scalar value is above the limit |
| AgpsModel.AlwaysConsistent | gps/gnss/Agps.cpp:72-290 | in every run handles are distinct, inactive subscribers are ones that wait, RELEASED has no subscribers, and PENDING and ACQUIRED have an active one or none at all; without restarts PENDING and ACQUIRED have an active and RELEASING an inactive one |
| AgpsModel.ConsistentAfterStep | gps/gnss/Agps.cpp:398-513 | every event keeps that |
| AgpsModel.ListedIff | gps/gnss/Agps.cpp:72-513 | in every run, restarts included: PENDING and ACQUIRED have an active subscriber, and any state but RELEASED has one at all, if and only if one asked since the last restart; an inactive one is listed, in RELEASING or elsewhere, if and only if a subscriber that waits for the close was released and neither dropped nor told since |
| AgpsModel.ListedAfterStep | gps/gnss/Agps.cpp:72-513 | every event keeps that |
| AgpsModel.RestartLeavesNobody | gps/gnss/Agps.cpp:502-513 | two runs in which a modem restart leaves PENDING and RELEASING without a subscriber |
| AgpsModel.ConnectionFollowsState | gps/gnss/Agps.cpp:72-314 | in every run, restarts included, a connection is outstanding exactly in PENDING and ACQUIRED; it is requested only when there is none and released only when there is one |
| AgpsModel.RequestsAreSeparated | gps/gnss/Agps.cpp:296-314 | between two requests there is always a release, a denial or a forced release |
| AgpsModel.SubscriptionsConserved | gps/gnss/Agps.cpp:316-448 | in every run each accepted subscription is listed, was ended by exactly one terminating notification, or was dropped by a modem restart |
| AgpsModel.ActiveAreTold | gps/gnss/Agps.cpp:99-196 | in every run, while ACQUIRED, the last word to each active subscriber is that its connection is granted |
| AgpsEffects.SentByStep | gps/gnss/Agps.cpp:72-513 | every event in every state sends exactly the callbacks and commands that the state and the subscriber's status call for, each once and no others: which handle is told that its open succeeded or failed, or its close succeeded or failed, and when a connection is requested or released |
| AgpsEffects.StatusAfterStep | gps/gnss/Agps.cpp:72-448 | every event in every state leaves each handle absent, active or inactive exactly as its status before and the event say |
| AgpsEffects.StateAfterStep | gps/gnss/Agps.cpp:72-290 | every event leads from every state to exactly the state that who is listed and active calls for |
| AgpsEffects.RequestIsListed | gps/gnss/Agps.cpp:72-114 | who asks is listed, whatever the state |
| AgpsEffects.ListedIffAsked | gps/gnss/Agps.cpp:72-513 | in every run a handle is listed if and only if it was asked for since it was last told that it is over, or dropped |
| AgpsEffects.OrderAfterStep | gps/gnss/Agps.cpp:398-436 | a new subscriber stands behind all others and no event changes the order of those that stay |
| AgpsEffects.NoticesInOrder | gps/gnss/Agps.cpp:324-348 | subscribers are told in list order |
| AgpsEffects.CommandComesLast | gps/gnss/Agps.cpp:72-290 | every event sends its command for the connection after all its callbacks |
| Agps.AgpsStateMachine.constructor | gps/gnss/Agps.h:161-165 | starts RELEASED with an empty list |
| Agps.AgpsStateMachine.AddSubscriber | gps/gnss/Agps.cpp:398-417 | appends unless the handle is listed |
| Agps.AgpsStateMachine.DeleteSubscriber | gps/gnss/Agps.cpp:419-436 | deletes every entry with the handle and keeps the order of the rest |
| Agps.AgpsStateMachine.AnyActiveSubscribers | gps/gnss/Agps.cpp:438-448 | whether any entry is active |
| Agps.AgpsStateMachine.GetSubscriber | gps/gnss/Agps.cpp:472-485 | the first entry with the handle, none if there is none |
| Agps.AgpsStateMachine.SetCurrentInactive | gps/gnss/Agps.cpp:132-134 | marks the current subscriber's entry inactive |
| Agps.AgpsStateMachine.NotifyEventToSubscriber | gps/gnss/Agps.cpp:351-386 | one callback to the handle, which is deleted if asked |
| Agps.AgpsStateMachine.NotifyAllSubscribers | gps/gnss/Agps.cpp:316-349 | one callback to each subscriber addressed, in list order; exactly those leave the list if asked |
| Agps.AgpsStateMachine.RequestOrReleaseDataConn | gps/gnss/Agps.cpp:296-314 | one command to the framework |
| Agps.AgpsStateMachine.DropAllSubscribers | gps/gnss/Agps.cpp:502-513 | empties the list without a word |
| Agps.AgpsStateMachine.ProcessAgpsEventSubscribe | gps/gnss/Agps.cpp:72-114 | what a subscription does in each state |
| Agps.AgpsStateMachine.ProcessAgpsEventUnsubscribe | gps/gnss/Agps.cpp:116-178 | what leaving does in each state, with the release of the connection when the last active subscriber goes |
| Agps.AgpsStateMachine.LeaveList | gps/gnss/Agps.cpp:129-139 | who waits for the close turns inactive, anyone else is told and deleted |
| Agps.AgpsStateMachine.ProcessAgpsEventGranted | gps/gnss/Agps.cpp:180-201 | only PENDING reacts, and tells its active subscribers |
| Agps.AgpsStateMachine.NotifyInactiveAndReconnect | gps/gnss/Agps.cpp:222-240 | after a release the inactive are told and deleted, and the connection is requested again if others wait |
| Agps.AgpsStateMachine.ProcessAgpsEventReleased | gps/gnss/Agps.cpp:203-248 | what a release does in each state |
| Agps.AgpsStateMachine.ProcessAgpsEventDenied | gps/gnss/Agps.cpp:250-290 | what a denial does in each state |
| Agps.AgpsStateMachine.Deliver | gps/gnss/Agps.cpp:770-896 | one request, release, report or modem restart is one step of the model |
| Agps.RunMachine | gps/gnss/Agps.cpp:40-70 | the object run over any events is in the state of the model's run, so the results on runs hold of it |
| Tracking.EngineRunsAtMinimumIff | gps/gnss/GnssAdapter.cpp:1222-1771 | after any run, refused calls included, the engine is idle without sessions and otherwise at their smallest interval, if and only if it has not refused a restart with no accepted call since |
| Tracking.EngineRunsAtMinimum | gps/gnss/GnssAdapter.cpp:1451-1771 | unconditionally so when restarts are accepted |
| Tracking.MapHoldsTheStarted | gps/gnss/GnssAdapter.cpp:1451-1721 | in every run the map holds exactly the sessions whose start was answered with success and that were not stopped, with the options of their last successful start or update |
| Tracking.StartRefines | gps/gnss/GnssAdapter.cpp:1498-1521 | starting a session leaves the engine at the new minimum and calls it exactly when the minimum changes |
| Tracking.UpdateRefines | gps/gnss/GnssAdapter.cpp:1646-1682 | changing a session's interval, up or down, leaves the engine at the new minimum |
| Tracking.UpdateAsksIff | gps/gnss/GnssAdapter.cpp:1651-1677 | an update asks the engine unless some other session's interval is as small as both the old and the new one |
| Tracking.StopRefines | gps/gnss/GnssAdapter.cpp:1724-1755 | stopping a session leaves the engine at the minimum of the rest, or idle, and calls it exactly when it has to |
| Tracking.AcceptedCallServes | gps/gnss/GnssAdapter.cpp:1498-1755 | an accepted call puts the engine right whatever it was doing |
| Tracking.NextServes | gps/gnss/GnssAdapter.cpp:1451-1771 | every command keeps the engine right, refused calls included |
| Tracking.DepartureServes | gps/gnss/GnssAdapter.cpp:1143-1157 | after any run, the stops of a departing client, refused or not, leave the engine at the minimum of the sessions that stay unless it was stranded, and then exactly if it is not any more |
| Tracking.StrandedRun | gps/gnss/GnssAdapter.cpp:1222-1245 | a run that ends with the engine idle and a session waiting |
| Tracking.Perform | gps/gnss/GnssAdapter.cpp:1143-1771 | one command on the adapter is the operations the model says, with the engine's answers |
| Tracking.RunAdapter | gps/gnss/GnssAdapter.cpp:1143-1771 | the adapter run over any commands is in the state of a run, its engine is right if and only if it is not stranded, and its sessions are those that the commands and their answers say |
| Tracking.GnssAdapter.StartTracking | gps/gnss/GnssAdapter.cpp:1524-1542 | the engine takes the interval or refuses and keeps its state |
| Tracking.GnssAdapter.StopTracking | gps/gnss/GnssAdapter.cpp:1758-1771 | the engine goes idle or refuses and keeps its state |
| Tracking.GnssAdapter.SmallestIntervalOptions | gps/gnss/GnssAdapter.cpp:1232-1242 | the loop over sessions finds the smallest interval, one session left out if asked |
| Tracking.GnssAdapter.StartTrackingMultiplex | gps/gnss/GnssAdapter.cpp:1498-1521 | makes the engine call a new session needs |
| Tracking.GnssAdapter.UpdateTrackingMultiplex | gps/gnss/GnssAdapter.cpp:1646-1682 | makes the engine call a changed session needs |
| Tracking.GnssAdapter.StopTrackingMultiplex | gps/gnss/GnssAdapter.cpp:1724-1755 | makes the engine call a leaving session needs |
| Tracking.GnssAdapter.StartTrackingCommand | gps/gnss/GnssAdapter.cpp:1451-1495 | success means that the session is in the map with its options; a general failure, that the engine was asked and refused; the error for each bad argument; an error changes nothing |
| Tracking.GnssAdapter.UpdateTrackingOptionsCommand | gps/gnss/GnssAdapter.cpp:1599-1643 | silent for an unknown session; success means that the session has the new options, a general failure that the engine was asked and refused; an error changes nothing |
| Tracking.GnssAdapter.StopTrackingCommand | gps/gnss/GnssAdapter.cpp:1685-1721 | silent for an unknown session; success means that the session is gone, a general failure that the engine was asked and refused; an error changes nothing |
| Tracking.GnssAdapter.StopAndErase | gps/gnss/GnssAdapter.cpp:1147-1151 | one stop; a refused one keeps the session |
| Tracking.GnssAdapter.StopClientSessions | gps/gnss/GnssAdapter.cpp:1143-1157 | exactly the client's sessions leave, but for one for each refusal of the engine, and an engine that ran as needed still does |
| Tracking.GnssAdapter.RestartSessions | gps/gnss/GnssAdapter.cpp:1222-1245 | hands the smallest interval to the engine that came up |
| SetMap.TrimSet | gps/utils/LocUnorderedSetMap.h:41-51 | removes and reports exactly the common elements |
| SetMap.AddedRelation | gps/utils/LocUnorderedSetMap.h:141-171 | adding means the pairs of keys and values join the relation and nothing else does |
| SetMap.TrimmedRelation | gps/utils/LocUnorderedSetMap.h:123-139 | trimming means the pairs of keys and values leave the relation and nothing else does |
| SetMap.AddedKeepsNoEmpty | gps/utils/LocUnorderedSetMap.h:141-155 | adding leaves no empty entry |
| SetMap.TrimmedKeepsNoEmpty | gps/utils/LocUnorderedSetMap.h:77-88 | trimming leaves no empty entry |
| SetMap.LocUnorderedSetMap.constructor | gps/utils/LocUnorderedSetMap.h:91-92 | an empty map |
| SetMap.LocUnorderedSetMap.GetValSet | gps/utils/LocUnorderedSetMap.h:103-108 | the entry, or an empty set |
| SetMap.LocUnorderedSetMap.Remove | gps/utils/LocUnorderedSetMap.h:119-121 | drops one entry and tells whether there was one |
| SetMap.LocUnorderedSetMap.Add | gps/utils/LocUnorderedSetMap.h:143-155 | adds to one entry; new exactly if the key had none and there is something to add |
| SetMap.LocUnorderedSetMap.AddAll | gps/utils/LocUnorderedSetMap.h:164-171 | adds to the entries of all keys and reports exactly the keys that got one |
| SetMap.LocUnorderedSetMap.TrimOrRemoveEntry | gps/utils/LocUnorderedSetMap.h:80-88 | trims one entry and drops it exactly if nothing is left |
| SetMap.LocUnorderedSetMap.TrimOrRemove | gps/utils/LocUnorderedSetMap.h:131-139 | trims all keys' entries and reports exactly the dropped keys and the deleted values |
| Subscriptions.IndexHoldsTheSubscriptions | gps/core/SystemStatusOsObserver.cpp:102-281 | in every run the two maps are inverse, have no empty entries and hold exactly the subscriptions in force |
| Subscriptions.SubscribeKeepsInverse | gps/core/SystemStatusOsObserver.cpp:102-107 | a subscription adds the client's pairs to both maps |
| Subscriptions.DropKeepsInverse | gps/core/SystemStatusOsObserver.cpp:222-281 | an unsubscription deletes the same pairs from both maps, though the second is driven by what the first gave up |
| Subscriptions.StepKeepsInverse | gps/core/SystemStatusOsObserver.cpp:69-342 | every message keeps the maps inverse |
| Subscriptions.FrameworkHoldsWhatIsWantedIff | gps/core/SystemStatusOsObserver.cpp:62-281 | in every run, nothing is sent before there is a subscription object; and at every moment nothing has been subscribed twice or unsubscribed without being held and the current object holds exactly the items some client wants, if and only if every object given is new or nothing was wanted when it was last current |
| Subscriptions.FrameworkHoldsWhatIsWanted | gps/core/SystemStatusOsObserver.cpp:62-281 | in particular both hold when no object is given twice |
| Subscriptions.StepKeepsSync | gps/core/SystemStatusOsObserver.cpp:62-281 | every message keeps the calls in order and the held items equal to the keys of the index, given an object that holds nothing |
| Subscriptions.SettingMatchesIff | gps/core/SystemStatusOsObserver.cpp:69-79 | one giving: the object ends up with the wanted items exactly when it held no others, and its calls are in order exactly when there are none or it held nothing |
| Subscriptions.HoldsWhatItWasLeftWith | gps/core/SystemStatusOsObserver.cpp:69-79 | as long as all went well, an object holds something exactly if something was wanted when it was last current |
| Subscriptions.ReplacedObjectKeepsItems | gps/core/SystemStatusOsObserver.cpp:69-79 | an object that was replaced is told nothing more |
| Subscriptions.StaleWhenGivenAgain | gps/core/SystemStatusOsObserver.cpp:69-79 | a run in which an object given a second time holds an item nobody wants |
| Subscriptions.DoubleWhenGivenTwice | gps/core/SystemStatusOsObserver.cpp:69-79 | a run in which the current object, given again, is told to subscribe what it holds |
| Subscriptions.ClientsAreUpToDate | gps/core/SystemStatusOsObserver.cpp:107-341 | in every run each client was last told the cached value of every cached item it wants |
| Subscriptions.NotifiedExactly | gps/core/SystemStatusOsObserver.cpp:309-342 | a notification reaches exactly the clients that want an updated item, each once, with exactly its updated items |
| Subscriptions.NotifyKeepsUpToDate | gps/core/SystemStatusOsObserver.cpp:309-342 | a notification leaves nobody with an old value |
| Subscriptions.SubscribeKeepsUpToDate | gps/core/SystemStatusOsObserver.cpp:107-107 | neither does a subscription |
| Subscriptions.CacheChangesWhereUpdated | gps/core/SystemStatusOsObserver.cpp:541-572 | the cache changes only at items reported as updated, and those are cached |
| SubscriptionEffects.CallsOfLastMessage | gps/core/SystemStatusOsObserver.cpp:69-281 | in every run each message makes exactly the calls it should: a new object is told to subscribe and then report all that is wanted; the current one to request, or else subscribe, what is newly wanted, or to unsubscribe what no longer is; in one call, and in none if there is no object or no such item |
| SubscriptionEffects.NoticesOfStep | gps/core/SystemStatusOsObserver.cpp:107-107 | a subscription is answered with one notice of exactly the cached ones of its items, or none if there are none; other messages but notifications send nothing |
| SubscriptionEffects.CacheHoldsTheLatest | gps/core/SystemStatusOsObserver.cpp:541-572 | in every run the cache holds, of each item, the value last received that took effect: handled, and stored if new or changed if known |
| SubscriptionEffects.UpdatedIff | gps/core/SystemStatusOsObserver.cpp:312-317 | an item counts as updated exactly if something in the notification takes effect on it |
| SubscriptionEffects.ClientsKnowTheLatest | gps/core/SystemStatusOsObserver.cpp:107-341 | in every run every client was last told, of each item it wants, the value last received that took effect |
| SubscriptionEffects.NotifiedOfEffects | gps/core/SystemStatusOsObserver.cpp:309-342 | in every run a notification reaches exactly the clients that want an item on which something in it takes effect, each once, with the last such value |
| OsObserver.SystemStatusOsObserver.constructor | gps/core/SystemStatusOsObserver.h:83-92 | starts with empty maps, cache and queue |
| OsObserver.SystemStatusOsObserver.SetSubscriptionObj | gps/core/SystemStatusOsObserver.cpp:82-86 | posts unless the object is NULL |
| OsObserver.SystemStatusOsObserver.Subscribe | gps/core/SystemStatusOsObserver.cpp:133-138 | posts unless the list is empty or the client NULL |
| OsObserver.SystemStatusOsObserver.Unsubscribe | gps/core/SystemStatusOsObserver.cpp:247-251 | posts unless the list is empty or the client NULL |
| OsObserver.SystemStatusOsObserver.UnsubscribeAll | gps/core/SystemStatusOsObserver.cpp:287-291 | posts unless the client is NULL |
| OsObserver.SystemStatusOsObserver.Notify | gps/core/SystemStatusOsObserver.cpp:347-373 | posts the items objects could be made for, after as many null entries as items came |
| OsObserver.ItemSet | gps/core/SystemStatusOsObserver.cpp:99-99 | the set posted holds exactly the items of the list |
| OsObserver.ReceivedHasEffect | gps/core/SystemStatusOsObserver.cpp:347-373 | posting a list has exactly the effect of its items that an object was made for, in order; the null entries have none |
| OsObserver.SystemStatusOsObserver.RunTask | gps/core/SystemStatusOsObserver.cpp:62-345 | handles the oldest message as one step of the model |
| OsObserver.SystemStatusOsObserver.ProcSetSubsObj | gps/core/SystemStatusOsObserver.cpp:69-79 | a new object is told to subscribe and report all keys, if any |
| OsObserver.SystemStatusOsObserver.ProcSubscribe | gps/core/SystemStatusOsObserver.cpp:102-126 | both maps take the pairs, the client gets what is cached, and only items nobody had are announced |
| OsObserver.SystemStatusOsObserver.ProcUnsubscribe | gps/core/SystemStatusOsObserver.cpp:222-241 | both maps lose the pairs, and only items nobody has any more are withdrawn |
| OsObserver.SystemStatusOsObserver.ProcUnsubscribeAll | gps/core/SystemStatusOsObserver.cpp:261-282 | the same for all of a client's items |
| OsObserver.SystemStatusOsObserver.ProcNotify | gps/core/SystemStatusOsObserver.cpp:309-342 | the cache takes the items and each client concerned gets its share |
| OsObserver.SystemStatusOsObserver.UpdateAll | gps/core/SystemStatusOsObserver.cpp:312-317 | the loop over received items, in order |
| OsObserver.SystemStatusOsObserver.UpdateCache | gps/core/SystemStatusOsObserver.cpp:541-572 | an item that takes effect is cached and reported: handled, and stored if new or changed if cached; any other changes nothing |
| OsObserver.SystemStatusOsObserver.SubscribersOf | gps/core/SystemStatusOsObserver.cpp:320-326 | exactly the clients of the updated items |
| OsObserver.SystemStatusOsObserver.OnlyUpdated | gps/core/SystemStatusOsObserver.cpp:331-338 | keeps the updated ones of a client's items |
| OsObserver.SystemStatusOsObserver.NotifyAll | gps/core/SystemStatusOsObserver.cpp:328-341 | one notice for each client that has a cached updated item |
| OsObserver.SystemStatusOsObserver.SendCachedDataItems | gps/core/SystemStatusOsObserver.cpp:513-539 | sends what the cache has of the items, and nothing when that is nothing |
| OsObserver.RunObserver | gps/core/SystemStatusOsObserver.cpp:62-345 | the object run over any messages goes through a run of the model, so the results on runs hold of it |
| LinkedList.Add | gps/utils/linked_list.c:110-154 | prepends; the error for each bad argument, and an error changes nothing |
| LinkedList.Remove | gps/utils/linked_list.c:161-202 | takes the last element and returns its data; an error changes nothing |
| LinkedList.Empty | gps/utils/linked_list.c:209-221 | 1 exactly for an empty list, 0 for any other, -3 for none |
| LinkedList.FlushList | gps/utils/linked_list.c:228-258 | empties the list, deallocating each element's data once and from the head on where told to |
| LinkedList.SearchList | gps/utils/linked_list.c:265-324 | finds the first match, unlinks exactly it if asked, keeps the order of the rest, and deallocates its data only if it is not handed out |
| LinkedList.ListState.constructor | gps/utils/linked_list.c:58-80 | an empty list |
| LinkedList.ListState.Prepend | gps/utils/linked_list.c:138-151 | a well-formed chain with the node in front |
| LinkedList.ListState.RemoveLast | gps/utils/linked_list.c:181-193 | a well-formed chain without its last node |
| LinkedList.ListState.Unlink | gps/utils/linked_list.c:295-307 | a well-formed chain without the node, which points nowhere |
| LinkedList.ListState.FindFirst | gps/utils/linked_list.c:282-321 | the first node whose data the predicate accepts |
| LinkedList.ListState.Search | gps/utils/linked_list.c:282-321 | as `SearchList`, for a list that is there |
| LinkedList.ListState.Flush | gps/utils/linked_list.c:238-255 | as `FlushList`, for a list that is there |
| LinkedList.FirstMatchIs | gps/utils/linked_list.c:288-321 | the place found is the first that matches |
| LinkedList.Rechained | gps/utils/linked_list.c:295-305 | linking a node's neighbours to each other leaves the chain without it |
| LinkedList.LeavesInOrder | gps/utils/linked_list.c:110-324 | over every run, what `remove` took followed by what it will take is in the order of adding, with searches and flushes only leaving elements out |
| LinkedList.ElementsConserved | gps/utils/linked_list.c:110-324 | over every run, each added element is still listed or has left exactly once: taken, handed out by a search, or discarded |
| LinkedList.DeallocatedIffDiscarded | gps/utils/linked_list.c:228-324 | over every run, an element's data is deallocated exactly as often as the element is flushed or unlinked by a search that hands nothing out, if it came with a function for that, and otherwise never |
| LinkedList.DeallocsInOrder | gps/utils/linked_list.c:239-253 | a flush deallocates from the head on |
| LinkedList.Perform | gps/utils/linked_list.c:110-324 | one operation through the interface does to the list object what the run says |
| LinkedList.RunList | gps/utils/linked_list.c:110-324 | the list object run over any operations holds, has handed out and has deallocated what the run says |

## Left out

- BmSearch: the pattern is a non-empty C string and text plus two pattern lengths stay within `int`, because the loop variable is an `int`; the check for an empty pattern comes after the tables are built and indexed with it, and is not modelled.
- HandleExpire: fires no callback itself; the interleaving of firing with client operations is in `TimerProtocol`.
- NoTimerLost: one of the two containers (waking or not) is modelled; they do not interact. Client operations are atomic under their lock, while the expiry path's unlocked read of `mClient` is a step of its own. The lifetime of client objects and of the locks is not modelled, nor a start that fails because its container could not be made.
- TimersArePreordered: like all that follows it, takes times whose seconds are below 2^31, so that differences fit in an `int`.
- CallBackEarlyIff: clients are modelled by their atomic operations; a callback is the moment of its step.
- DeleteSubscriber: where `releaseATL` has made the list element the current subscriber, the code deletes it and goes on comparing the later entries with the freed object (gps/gnss/Agps.cpp:425-435); the model compares with the handle it had.
- TrimOrRemove: the code reads `iter->first` after erasing the entry (gps/utils/LocUnorderedSetMap.h:135-136); the model takes it to be the key the iterator was found by.
- StrLen8to16: `len` and `expected` are unbounded, so strings of 2^31 bytes and more are not modelled faithfully.
- StrDup8to16: allocation succeeds; the code does not check it.
- StrNCpy16to8: the branch that leaves the loop on a unit of no bytes (libshims/strdup16to8.cpp:131) cannot be reached.
- LeavesInOrder: runs are of calls on a list that is there and of allocations that succeed; `malloc` failure is a parameter of `Add`. Freed memory is only memory nothing points at any more, and `linked_list_destroy` is not modelled.
- IndexHoldsTheSubscriptions: runs are of subscribe, requestData, unsubscribe, unsubscribeAll, notify and setSubscriptionObj. `updateSubscription` is left out: the `update` it uses returns the common values rather than the removed ones (gps/utils/LocUnorderedSetMap.h:184), so the maps do not stay inverse.
- ClientsAreUpToDate: whether SystemStatus handles an item, whether objects can be made for it and whether copying it changes the cached one are inputs; pointers to cached items are values at the time of the notice.
- NotifiedExactly: the order of clients and of items in an unordered container is left open.
- EngineRunsAtMinimumIff: session ids are fresh, the engine's answers are inputs, the ULP proxy is folded into them, and only the interval of the options is kept.
- Deliver: one machine; the manager's choice among machines by type, APN and bearer are left out. Subscribers are values, so the aliasing of the current subscriber with its list entry is made explicit in `SetCurrentInactive`.
- `DSStateMachine` overrides the connection commands and retries with a timer; there "RELEASED has no subscribers" is false because a failed start keeps its subscriber (gps/gnss/Agps.cpp:86-89), and the bound on its retry counter would be an easy member.
- `turnOn` and `turnOff`: the message posts to the observer itself (gps/core/SystemStatusOsObserver.cpp:408), so the count is re-entered.
- `strcpylen8to16` does not advance on an embedded NUL and adds nothing to `strcpy8to16`.
- ODCPI requests, geofences, batching, NMEA, HIDL wrappers, configuration, IPC framing, lights, thermal, init and modem partition reading: foreign calls, I/O or one-branch mappings.
