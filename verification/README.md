# Verification of the list macros, the DHCP client and relay, and the SPIFFS layout

A Dafny model of four parts of the repository, with proofs of what each is for. What the C
code does to memory is kept in that form: list nodes, packets, the relay's table and the
client's variables are classes and arrays that methods change in place; each method is
proved against a specification function on values, and the main results are lemmas about
those functions. `dafny verify dfyconfig.toml` checks everything.

| folder | what it models |
|---|---|
| `lists/` | the intrusive list macros of `components/osal/ulist.h`: the three in-place merge sorts, ordered insertion, and the edits of singly linked, doubly linked and circular lists |
| `client/` | the event loop of the DHCP client, `components/net/udhcp/dhcpc.c`: `ClientSpec` is one turn of the loop as a function, `ClientLoop` the loop's statements over its variables, `ClientSafety`, `ClientLease`, `ClientTraffic` and `ClientExits` what holds in every run, `ClientDialogue` whole conversations |
| `options/` | the options of a DHCP message (`components/net/udhcp/common.c`), and what the client builds from and reads into them |
| `relay/` | the relay's transaction table and its interface list, `components/net/udhcp/dhcprelay.c` |
| `spiffs/` | the address and index macros of `components/fsal/spiffs/spiffs_nucleus.h` |

`Wrappers.dfy` and `DivMod.dfy` hold what several of them share.

## Main results

* **Sorting.** Each sort macro leaves, linked in its own shape, exactly the node sequence
  `MergeSort` of the old one. For a total preorder that is the sorted, stable permutation,
  the only one there is, and the same sequence that ordered insertion of the elements from
  last to first yields (`MergeSortCorrect`, `StableSortUnique`, `SortIsInsertionInOrder`).
  It takes at most m comparisons a node for up to 2^m nodes (`SortCostBound`).
* **The client's lease.** Whatever arrives, in whatever order, no state that stands on a
  lease outlives it (`LeaseNeverOutlived`); left alone, the client gives it up after exactly
  `2t - ones(t)` seconds, `t` being half the lease time (`SilentLease`).
* **The client's partner.** In every run whatever the client sends names the server, the
  address and the transaction that the packets taken so far have told it, and rebinding names
  no server (`SpeaksAsTold`). Conversations are given action by action: the four-way
  handshake, renewals, refusals, signals, and silence with its exact number of retries
  (`Handshake`, `RenewalHandshake`, `Refused`, `SearchGivesUp`, `SilentRenewals`).
* **The client's interface.** The address on the interface fits the state and stays within
  its lease in every run if and only if `-A` is at most 60 seconds or the client never rests
  on a lease, which is so with `-q` (it quits on the first one) and with `-T 0` (it never
  waits for an answer to a request) (`CoherentIff`, `AddressesKeepLeasesIff`).
* **Options.** The walk over a field reads exactly the format of RFC 2132, padding, options
  and end mark (`WalkReadsPieces`, `WalkReadsCutOff`), and goes on in `file` and `sname` as
  the bits of the overload options say (`OptionsInOrder`). A lookup returns the first match
  in that list; appending extends it by exactly the new option, and it leaves all other
  lookups alone under an exact condition (`AppendKeepsLookupsIff`). The requests the client
  builds carry exactly the options that its configuration asks for, and a lookup in them
  gives back the addresses asked for (`SelectCarries`).
* **The script's environment.** Every option found is exported once, the fixed fields exactly
  if the message has them, and with one overload option no field is both searched for options
  and exported as a name (`ExportedOptions`, `FixedExports`, `NoFieldTwice`). The text of an
  option, split as a script would, gives back the option's bytes (`ListSays`, `RoutesSay`).
* **Relay.** Over any run the table holds exactly the requests that still wait, newest
  first; the deliveries are exactly the replies that could be sent while a request waited,
  each to the newest one (`DeliveredExactly`), and never outnumber requests.
* **SPIFFS.** Entries and pages, spans and index entries correspond one to one; the check
  that guards the magic is sound for power-of-two layouts, with its exact condition in general.

## Where the code falls short

Each of these is stated as the exact condition under which the code does what it promises,
with a concrete failing input where there is one.

* With `-A` above 60 seconds a renewal signal can leave the client resting in
  RENEW_REQUESTED, which `perform_release` does not count as standing on a lease: a release
  signal then leaves the address on the interface for good (`ReleaseCanLeak`, `LeakOutlives`).
* A pause after a read error that runs past the wait is charged to that wait only, so that by
  the clock a lease can be outlived, for every command line with which the client rests on a
  lease (`ClockKeptIff`); in runs without uncounted seconds it never is
  (`SteadyLeaseNeverOutlived`).
* An overload option of length zero takes the byte behind it for its value. If it stands
  right before the end mark, that mark names both `file` and `sname`, and an addition puts
  its own code there: a field goes out of play, and lookups change, exactly if neither that
  code nor an earlier overload option names it (`AppendKeepsLookupsIff`, with the message of
  `EmptyOverloadDisturbsLookups`).
* `fill_envp` looks at the first overload option only, lookups heed all of them: with more
  than one, a field can be both searched for options and exported as a name (`FieldTwice`).
* `fill_envp` counts on zeroed memory for the NULL pointer behind the environment, which
  `udhcp_run_script` reads up to. In this port `xzalloc` is `OS_MemAlloc`
  (`components/net/udhcp/udhcp_common.h:57`), beside which there is an `OS_MemZalloc`: the
  vector ends where it should exactly if the allocator left that place NULL (`FillEnvp`,
  and `StalePointerRead` for a message without options).
* An option with code 0 or 255 is added but cannot be read back (`AppendRoundTripIff`,
  `PaddingNotReadBack`).
* The comment at `mton` says that it counts bits. It returns the place of the last set bit,
  which is the same exactly for the masks of prefixes (`MtonCountsBitsIff`,
  `MtonMiscounts`). The model follows the code.
* `udhcp_find_option` takes its list to be ascending. It finds every option exactly if each
  repeats an earlier code or exceeds all before it (`FindsAllIff`, `MissedOutOfOrder`). In
  this port the list is always empty, because the code that would build it is switched off
  (`components/net/udhcp/common.c:403-490`, `:492-624`).
* `SPIFFS_CHECK_MAGIC_POSSIBLE` passes some layouts in which lookup entries and the magic
  overlap, exactly those of `CheckUnsoundIff`; none of them has power-of-two sizes.
* The address of an entry's page comes out the same through its block and through its page
  index only if pages fill blocks evenly (`PaddrRoutesAgreeIff`, `PaddrRoutesDiffer`).

## Assumptions

* Constants and sizes from `components/net/udhcp/udhcp_common.h`: an options field of 308
  bytes, `file` of 128, `sname` of 64; padding 0, end mark 255, overload 0x34; the code, the
  length and the data of an option at offsets 0, 1 and 2; FILE_FIELD 1, SNAME_FIELD 2.
* A little-endian machine whose `int` and `long` have 32 bits. Times are whole seconds.
* A message starts out zeroed, by the `memset` of `udhcp_init_header`
  (`components/net/udhcp/packet.c:20`).
* `select` returns within the wait it is given. What the operating system, the server and
  the user do is the events of a run: any sequence of them is allowed.
* The comparison of a sort is a function of two nodes. The sorts terminate and keep the
  nodes for any such function (`MergeSortPermutes`); sortedness needs a total preorder, and
  that ordered insertion, which compares the other way round, yields the same also needs the
  two directions to agree (`InsertAtBoundIff`).

## Model

| member | source | states |
|---|---|---|
| ListSort.SortSingly | components/osal/ulist.h:111-169 | terminates for any comparison and leaves a NULL-terminated list of exactly the old nodes, in the order `MergeSort` gives them, after `SortCost` comparisons |
| ListSort.SortDoubly | components/osal/ulist.h:175-233 | the same, with every `prev` its predecessor, the head's `prev` the tail and the tail's `next` NULL |
| ListSort.SortCircular | components/osal/ulist.h:238-309 | the same, as a closed circular list whose `prev` and `next` are inverse |
| ListSort.SinglyPass | components/osal/ulist.h:123-162 | one pass is `Pass` on the sequence, the shape is whole again, and at most one merge was made iff the list is no longer than two runs |
| ListSort.DoublyPass | components/osal/ulist.h:187-226 | the same for the doubly linked shape, restored by every pass |
| ListSort.CircularPass | components/osal/ulist.h:250-302 | the same for the circular shape, though the end of the input is told only by the old head |
| ListSort.MergePass | components/osal/ulist.h:123-159 | the chain left by a pass is `Pass` of the input, linked forward (and backward where asked), before its ends are closed |
| ListSort.MergeRuns | components/osal/ulist.h:136-158 | the emitted chain grows by the merge of the two runs; all links of the rest of the input are untouched; `q` stands behind the second run |
| ListSort.Choose | components/osal/ulist.h:138-150 | the node taken heads the merge of what is left of the two runs, ties from the left one, and the cursors stand behind it |
| ListSort.SkipRun | components/osal/ulist.h:129-135 | steps `insize` places or to the end of the input and counts them |
| MergeSpec.MergeSortCorrect | components/osal/ulist.h:111-169 | for a total preorder the sort's result is sorted, a permutation, and keeps equal elements in order |
| MergeSpec.MergeSortPermutes | components/osal/ulist.h:111-169 | for any comparison at all, the sort keeps the elements |
| SortCosts.SortCostBound | components/osal/ulist.h:57 | a list of at most 2^m elements is sorted with at most m comparisons an element, the documented O(n log n) |
| SortCosts.PassCostBound | components/osal/ulist.h:123-159 | a pass over n elements makes at most n comparisons |
| MergeSpec.StableSortUnique | components/osal/ulist.h:111-169 | sortedness, permutation and stability determine the sequence |
| MergeSpec.MergeSortIsInsertionSort | components/osal/ulist.h:357-383 | the bottom-up merge sort yields exactly what ordered insertion of the elements, the last one first, yields |
| MergeSpec.PassDoublesBlocks | components/osal/ulist.h:123-159 | the pass invariant: a pass at `k` takes insertion-sorted aligned blocks of `k` to such blocks of `2k` |
| MergeSpec.PassesFinishBlocks | components/osal/ulist.h:120-167 | passes with doubling `k`, stopped at a pass of one merge, end in one insertion-sorted block |
| MergeSpec.MergeSortedHalves | components/osal/ulist.h:137-157 | merging two insertion-sorted halves is insertion-sorting the whole |
| MergeSpec.MergeIsInsertAll | components/osal/ulist.h:137-157 | merging sorted runs is inserting the left one, last element first, into the right one |
| MergeSpec.InsertSorted | components/osal/ulist.h:357-367 | ordered insertion keeps a sorted list sorted |
| MergeSpec.InsertStable | components/osal/ulist.h:357-367 | ordered insertion puts an element before its equals |
| SinglyEdit.InsertAtBound | components/osal/ulist.h:357-383 | inserting behind the lower bound is ordered insertion, on any list, sorted or not |
| SinglyEdit.InsertAtBoundIff | components/osal/ulist.h:357-383 | that is so on all lists iff the comparison says the same both ways round |
| SinglyEdit.SortIsInsertionInOrder | components/osal/ulist.h:357-383 | composed: the sort yields what placing the elements at their lower bounds, the last one first, in an empty list yields |
| SinglyEdit.LowerBound | components/osal/ulist.h:372-383 | the last of the leading nodes below `like`, or NULL |
| SinglyEdit.InsertInOrder | components/osal/ulist.h:357-367 | for any comparison, the node goes behind the leading nodes below it |
| SinglyEdit.InsertInOrderNoDecltype | components/osal/ulist.h:540-554 | the same for the rewrite in which the head walks the list |
| SinglyEdit.Prepend | components/osal/ulist.h:317-321 | the node comes first |
| SinglyEdit.Append | components/osal/ulist.h:341-352 | the node comes last |
| SinglyEdit.AppendNoDecltype | components/osal/ulist.h:527-537 | the same, with the new node's own link walking the list |
| SinglyEdit.Concat | components/osal/ulist.h:326-336 | the second list follows the first, either may be empty |
| SinglyEdit.Delete | components/osal/ulist.h:388-402 | the node is taken out; a node that is not in the list changes nothing |
| SinglyEdit.Replace | components/osal/ulist.h:445-463 | the new node stands in the old one's place |
| SinglyEdit.ReplaceNoDecltype | components/osal/ulist.h:574-591 | the same for the rewrite |
| SinglyEdit.PrependElem | components/osal/ulist.h:468-489 | the node comes before the given one, or last for NULL |
| SinglyEdit.PrependElemNoDecltype | components/osal/ulist.h:594-614 | the same for the rewrite |
| SinglyEdit.AppendElem | components/osal/ulist.h:494-504 | the node comes behind the given one, or first for NULL |
| DoublyEdit.Prepend | components/osal/ulist.h:624-634 | the node comes first, in a whole doubly linked list |
| DoublyEdit.Append | components/osal/ulist.h:639-651 | the node comes last and is the head's `prev` |
| DoublyEdit.InsertInOrder | components/osal/ulist.h:656-683 | the same, all links whole |
| DoublyEdit.Concat | components/osal/ulist.h:688-701 | the second list follows the first; the head's `prev` is the new tail |
| DoublyEdit.Delete | components/osal/ulist.h:706-723 | the node is taken out at the head, the tail or between |
| DoublyEdit.Replace | components/osal/ulist.h:753-777 | the new node stands in the old one's place, at the head or tail too |
| DoublyEdit.PrependElem | components/osal/ulist.h:782-798 | the node comes before the given one, or last for NULL |
| DoublyEdit.AppendElem | components/osal/ulist.h:803-819 | the node comes behind the given one, or first for NULL |
| DoublyEdit.AppendThenDelete | components/osal/ulist.h:706-723 | deleting a node that was just put in, anywhere, restores the list, its head and every link of its nodes |
| CircularEdit.Append | components/osal/ulist.h:863-875 | the node comes last in the circle |
| CircularEdit.Prepend | components/osal/ulist.h:880-892 | the node comes first in the circle |
| CircularEdit.InsertInOrder | components/osal/ulist.h:897-924 | the same in the circle |
| CircularEdit.InsertInOrderNoDecltype | components/osal/ulist.h:1047-1070 | the same for the rewrite |
| CircularEdit.LowerBound | components/osal/ulist.h:913-924 | the last of the leading nodes below `like`, or NULL, stopping at the head |
| CircularEdit.Delete | components/osal/ulist.h:929-938 | the node is taken out; the last one leaves NULL |
| CircularEdit.Replace | components/osal/ulist.h:983-1001 | the new node stands in the old one's place, alone in the circle too |
| CircularEdit.PrependElem | components/osal/ulist.h:1006-1021 | the node comes before the given one, or last for NULL |
| CircularEdit.AppendElem | components/osal/ulist.h:1026-1038 | the node comes behind the given one, or first for NULL |
| CircularEdit.AppendThenDelete | components/osal/ulist.h:926-1038 | deleting a node that was just put in, anywhere, restores the circle, its head and every link of its nodes |
| ClientLoop.DhcpClient.constructor | components/net/udhcp/dhcpc.c:1383-1388 | the state in which the loop is entered, after the first deconfig; everything that the class promises holds in it |
| ClientLoop.DhcpClient.Turn | components/net/udhcp/dhcpc.c:1394-1785 | one turn, for any event, keeps the socket, timer, lease and configuration invariants of the fields, a lease that it ends was not outlived, what it sends names the server, address and transaction known before, and these become what the event tells |
| ClientLoop.DhcpClient.Loop | components/net/udhcp/dhcpc.c:1394-1785 | the loop, over any events: the open socket fits the state, on a lease the seconds spent and still to be waited stay below its time, with `-A` at most 60 the interface has an address exactly on a lease, and server, address and transaction are those that the packets taken have told |
| ClientSafety.SocketsAlwaysFit | components/net/udhcp/dhcpc.c:1055-1096 | in every reachable state the listen mode is the one that belongs to the state, a socket is open iff listening, and REBINDING has at most 60 seconds left |
| ClientSafety.TurnKeepsSockets | components/net/udhcp/dhcpc.c:1394-1785 | every turn keeps that invariant |
| ClientSafety.CoherentIff | components/net/udhcp/dhcpc.c:1556-1779 | the interface's address as left by the scripts is the one the state claims, "bound" runs only without and "renew" only with an address, renewals and releases name it, in all runs iff `-A` is at most 60 or the client never rests on a lease |
| ClientSafety.ShortTryagainNeverRestsRequested | components/net/udhcp/dhcpc.c:1556-1574 | with `-A` at most 60 RENEW_REQUESTED is never a loop-head state and the interface is configured exactly in BOUND, RENEWING and REBINDING |
| ClientSafety.TurnCoherent | components/net/udhcp/dhcpc.c:1394-1785 | every turn keeps that, from a state without a lease even for a large `-A` |
| ClientSafety.TimeoutCoherent | components/net/udhcp/dhcpc.c:1433-1549 | the end of a wait keeps it, in every state |
| ClientSafety.Usr1Coherent | components/net/udhcp/dhcpc.c:1556-1579 | a renewal signal keeps it with `-A` at most 60 or without a lease |
| ClientSafety.ReleaseCoherent | components/net/udhcp/dhcpc.c:1098-1117 | a release keeps it from every state in which it holds, and leaves RELEASED |
| ClientSafety.AckCoherent | components/net/udhcp/dhcpc.c:1686-1764 | an acknowledgement keeps it, declined or not, quitting or not |
| ClientSafety.NakCoherent | components/net/udhcp/dhcpc.c:1765-1779 | a refusal keeps it |
| ClientSafety.ReleaseCanLeak | components/net/udhcp/dhcpc.c:1098-1117 | a run to RELEASED with the address still on the interface, for every `-A` above 60 |
| ClientLease.LeaseNeverOutlived | components/net/udhcp/dhcpc.c:1497-1543 | after any run from the start, while the state stands on a lease, the time since its acknowledgement, less the uncounted seconds, stays below the clamped lease, through the turn that ends it |
| ClientLease.AddressesKeepLeasesIff | components/net/udhcp/dhcpc.c:1497-1587 | an address on the interface stays within its lease in all runs iff `-A` is at most 60 or the client never rests on a lease |
| ClientLease.SteadyLeaseNeverOutlived | components/net/udhcp/dhcpc.c:1497-1543 | by the clock, a lease is not outlived in any run in which no second goes uncounted |
| ClientLease.UncountedAtMost | components/net/udhcp/dhcpc.c:1594-1613 | only a select that returns for nothing and the pause after a read error go uncounted, the latter for at most its length |
| ClientLease.OverrunAtMost | components/net/udhcp/dhcpc.c:1594-1613 | in any run, by the clock, a lease is outlived by at most a pause for each read error and the time of the selects that return for nothing |
| ClientLease.ClockKeptIff | components/net/udhcp/dhcpc.c:1594-1613 | by the clock, leases are kept in all runs, read errors included, iff the client never rests on one |
| ClientLease.TurnKeepsLease | components/net/udhcp/dhcpc.c:1394-1785 | on a lease, time spent plus waits to come never exceeds `T + T/2 + ...`, through every turn |
| ClientLease.Usr1Spends | components/net/udhcp/dhcpc.c:1556-1574 | a renewal signal never increases the waits still to come |
| ClientLease.TotalWaitsClosedForm | components/net/udhcp/dhcpc.c:1507-1534 | `T + T/2 + T/4 + ... = 2T -` the number of one bits of `T` |
| ClientLease.SilentLease | components/net/udhcp/dhcpc.c:1497-1543 | with no answer the waits total exactly that, the lease is held before and given up after |
| ClientLease.AckStartsLease | components/net/udhcp/dhcpc.c:1686-1764 | an accepted acknowledgement leaves BOUND with the waits of its clamped lease ahead |
| ClientLease.TurnKeepsTimer | components/net/udhcp/dhcpc.c:1411-1422 | timer variables stay in ranges in which the unsigned subtraction and additions are exact |
| ClientTraffic.SpeaksAsTold | components/net/udhcp/dhcpc.c:1453-1779 | in every run from the start: a discover carries the id drawn for the search and the address last known; a select the server id (0 if none) and the address of the last offer taken; a renewal goes to that server, in REBINDING to 0, for the address confirmed; releases and declines go to that server; scripts set up the address confirmed |
| ClientTraffic.RunTold | components/net/udhcp/dhcpc.c:1639-1779 | in every run the client's server, address and transaction are those of the last offer, acknowledgement, refusal and search among the events |
| ClientTraffic.TurnTold | components/net/udhcp/dhcpc.c:1394-1785 | each turn keeps that and says the right things, from every state whose socket fits |
| ClientDialogue.Handshake | components/net/udhcp/dhcpc.c:1453-1763 | discover, offer, select, acknowledge: exactly these two sends and the script, to the server of the offer, for its address, in one transaction; then BOUND for half the clamped lease, or off with `-q` |
| ClientDialogue.RenewalHandshake | components/net/udhcp/dhcpc.c:1497-1763 | a due renewal that is acknowledged is one request, to the server above 60 seconds and to anyone below, and the script; then BOUND for half the new lease |
| ClientDialogue.SilentRenewals | components/net/udhcp/dhcpc.c:1497-1543 | without answers the requests are one for each halving of the timeout, to the server above 60 and to anyone below, and then a deconfig and a new search |
| ClientDialogue.SilentSearch | components/net/udhcp/dhcpc.c:1453-1462 | without an offer there is one discover for every wait, with one id and the old address, up to `-t` of them |
| ClientDialogue.SilentRequest | components/net/udhcp/dhcpc.c:1482-1489 | without an answer the same select is sent for every wait, up to `-t` of them |
| ClientDialogue.SearchGivesUp | components/net/udhcp/dhcpc.c:1453-1481 | after exactly `-t` discovers the failure is reported; `-n` without `-b` exits with 1, otherwise the search starts over after `-A`, `-b` being used up |
| ClientDialogue.RequestGivesUp | components/net/udhcp/dhcpc.c:1482-1496 | after exactly `-t` selects the same |
| ClientDialogue.Refused | components/net/udhcp/dhcpc.c:1765-1779 | a refusal ends the lease if there is one, and the next discover, at once, asks for no address |
| ClientDialogue.InUse | components/net/udhcp/dhcpc.c:1705-1735 | an address in use is declined to the server, the lease ended if there is one, and the next discover, after `-A`, asks for no address |
| ClientDialogue.OthersIgnored | components/net/udhcp/dhcpc.c:1615-1780 | a packet of another transaction, for another client, without a type or of a type not waited for changes nothing but the time waited |
| ClientDialogue.RenewsOnSignal | components/net/udhcp/dhcpc.c:1556-1574 | on a lease SIGUSR1 sends one request at once, to the server or to anyone by the smaller of the timeout and `-A`, and goes on with half of that |
| ClientDialogue.SearchesOnSignal | components/net/udhcp/dhcpc.c:1556-1579 | without a lease SIGUSR1 leads to a discover at once, in a new transaction |
| ClientDialogue.ReleasesOnSignal | components/net/udhcp/dhcpc.c:1580-1583 | SIGUSR2 releases a lease to its server, and then waits, reads and interruptions do nothing |
| ClientDialogue.Ends | components/net/udhcp/dhcpc.c:1584-1790 | SIGTERM and a lost interface exit with 0, releasing a lease iff `-R` |
| ClientExits.ExitCodes | components/net/udhcp/dhcpc.c:1463-1481 | the exit code is 0 or 1, and 1 only under `-n`, with no address ever set up and the failure reported last |
| OptionPacket.DhcpPacket.GetOption | components/net/udhcp/common.c:245-306 | terminates and returns the field and the data offset of the first match in the list of all options, or NULL |
| OptionSpec.FromInside | components/net/udhcp/common.c:245-306 | code, length and data of every option in that list lie inside one field and are the bytes there |
| OptionPacket.LookupStep | components/net/udhcp/common.c:254-303 | each branch of the walk leaves the lookup's result unchanged or decides it |
| OptionPacket.DataAtOffset | components/net/udhcp/common.c:288-294 | two places before the data that a lookup points to is the code, one before it the length, and the data end in the field |
| OptionGrammar.WalkReadsPieces | components/net/udhcp/common.c:254-303 | for any sequence of padding and options before an end mark, and anything behind it, the walk lists exactly these options, in order and at their places, and ends at the mark |
| OptionGrammar.WalkReadsCutOff | components/net/udhcp/common.c:254-303 | if what follows them is cut off or nothing, it lists the same and tells the fault |
| OptionGrammar.PiecesOf | components/net/udhcp/common.c:254-303 | every field is of one of these two forms |
| OptionOverload.InPlayIff | components/net/udhcp/common.c:269-300 | if the overload options have values, `file` is in play iff bit 0 of one of them is set, `sname` iff bit 1 is |
| OptionOverload.OptionsInOrder | components/net/udhcp/common.c:245-306 | then the options of a message are those of `options`, of `file` and of `sname`, each field once, iff named by a field walked before and all of these have end marks, `file` first where `options` names it |
| OptionOverload.LookupBehind | components/net/udhcp/common.c:245-306 | a code that `options` lacks is looked up in just these |
| OptionOverload.RouterInFile | components/net/udhcp/common.c:245-306 | with an overload value of 1 the router in `file` is found |
| OptionPacket.DhcpPacket.EndOption | components/net/udhcp/common.c:309-321 | the end mark's place in a terminated field |
| OptionPacket.DhcpPacket.AddBinaryOption | components/net/udhcp/common.c:324-341 | the bytes become `Added`: unchanged if the option does not fit, else with it and a new end mark in place |
| OptionPacket.DhcpPacket.AddSimpleOption | components/net/udhcp/common.c:344-365 | the same for a value of the length that the table gives the code; an unknown code changes nothing |
| OptionPacket.AddedIff | components/net/udhcp/common.c:324-341 | in the 308 bytes an option is added, and parsed back, iff its data end by place 306; otherwise nothing changes |
| OptionRequests.LittleEndianWord | components/net/udhcp/common.c:354-360 | the four bytes of a simple option's value, lowest first, are the value |
| OptionAppend.AppendParses | components/net/udhcp/common.c:309-341 | the parsed list grows by exactly the new option, behind the old ones, and the field stays terminated |
| OptionAppend.AppendRoundTripIff | components/net/udhcp/common.c:309-341 | that is so iff the code is neither padding nor the end mark |
| OptionAppend.PaddingNotReadBack | components/net/udhcp/common.c:324-341 | an option with code 0, added to an empty field, is not in it |
| OptionLookups.NamedAfter | components/net/udhcp/common.c:289-341 | an addition leaves the same further fields in play iff `KeepsFields`: the last option is no empty overload option right before the end mark, or the new code and the earlier ones still name both fields |
| OptionLookups.AppendLookup | components/net/udhcp/common.c:245-341 | then other codes are found as before, and the added one with its exact data if the options field had none |
| OptionLookups.AppendKeepsLookupsIff | components/net/udhcp/common.c:245-341 | the lookups of all other codes stay the same, whatever `file` and `sname` hold, iff `KeepsFields` |
| OptionLookups.EmptyOverloadDisturbsLookups | components/net/udhcp/common.c:245-341 | a whole message in which they do not |
| OptionSets.FindOption | components/net/udhcp/common.c:368-376 | the option found has the code, with only smaller ones before it; NULL iff there is none such |
| OptionSets.FindsAllIff | components/net/udhcp/common.c:368-376 | every member is found iff each repeats an earlier code or exceeds all before it; in ascending lists always |
| OptionSets.MissedOutOfOrder | components/net/udhcp/common.c:368-376 | in the list 5, 3 the option 3 is missed |
| OptionBuilder.AddAllAddsAccepted | components/net/udhcp/common.c:324-341 | a sequence of additions extends the list, in order, by exactly the options that fit |
| OptionBuilder.AddParamRequest | components/net/udhcp/dhcpc.c:595-611 | the mask's list is written in place as one option, or nothing for an empty mask |
| OptionBuilder.WantedExactly | components/net/udhcp/dhcpc.c:600-605 | the list is the set bits 1 to 254 of the mask, ascending, each once |
| OptionBuilder.WantsOne | components/net/udhcp/dhcpc.c:600-605 | the mask whose byte i / 8 is 2^(i % 8) asks for option i alone |
| OptionBuilder.AddClientOptions | components/net/udhcp/dhcpc.c:589-632 | the parsed list grows by the maximal size, the parameter request list, and each optional option that fits, in order |
| OptionBuilder.InitPacket | components/net/udhcp/dhcpc.c:569-587 | a fresh message carries its type and the client id |
| OptionBuilder.DiscoverOptions | components/net/udhcp/dhcpc.c:680-706 | the options of a discover, for every configuration; the unchecked list always has room |
| OptionBuilder.SelectOptions | components/net/udhcp/dhcpc.c:709-747 | the options of a select |
| OptionBuilder.RenewOptions | components/net/udhcp/dhcpc.c:750-787 | the options of a renewal |
| OptionRequests.DiscoverCarries | components/net/udhcp/dhcpc.c:680-706 | lookups in a discover give type 1, the address wanted if there is one, the client id, 576 bytes and the parameter list |
| OptionRequests.SelectCarries | components/net/udhcp/dhcpc.c:709-747 | lookups in a select give type 3, the address requested as option 50 and the server as option 54, the client id, 576 bytes and the parameter list |
| OptionRequests.RenewCarries | components/net/udhcp/dhcpc.c:750-787 | lookups in a renewal give type 3, the client id, 576 bytes and the parameter list |
| OptionRequests.OptionalLast | components/net/udhcp/dhcpc.c:613-632 | with room for all, a request ends in vendor class, host name, qualified name and the `-x` options, in this order |
| OptionEnvironment.FindOptions | components/net/udhcp/dhcpc.c:417-444 | the bits set are exactly the codes 1 to 254 that a lookup finds, and the count has room for all variables |
| OptionEnvironment.FillEnvp | components/net/udhcp/dhcpc.c:402-536 | the variables written are the fixed ones and one per option found, the last place stays unwritten, and the reader that stops at NULL sees just these iff the allocator left a NULL behind them |
| OptionEnvironment.StalePointerRead | components/net/udhcp/dhcpc.c:445-451 | for a message without options the vector has two variables in six places, and a stale third place is read as a variable |
| OptionEnvironment.ExportUnnamed | components/net/udhcp/dhcpc.c:513-533 | the loop that steps over empty words exports exactly the bits that are left, ascending |
| OptionEnvironment.ExportedOnce | components/net/udhcp/dhcpc.c:488-533 | every option found is exported exactly once, under its name iff it has one, the subnet also as a number of bits, and no other option is |
| OptionExports.ExportedOptions | components/net/udhcp/dhcpc.c:417-533 | for any message, a variable for each option that a lookup finds, once, under its name iff it has one, and no other |
| OptionExports.FixedExports | components/net/udhcp/dhcpc.c:466-485 | interface and address always, the next server iff nonzero, `file` and `sname` iff their first byte is set and the first overload option found leaves the field's bit clear, each once |
| OptionExports.NoFieldTwice | components/net/udhcp/dhcpc.c:417-485 | in a message with one overload option, no field is both searched for options and exported as a name |
| OptionExports.FieldTwice | components/net/udhcp/dhcpc.c:417-485 | with the overload values 2 and then 1 the options of `file` are in play and its bytes are exported as the boot file as well |
| OptionExports.NamesRunParallel | components/net/udhcp/common.c:98-143 | the names stand in the order of the option table |
| OptionText.OptnameOptval | components/net/udhcp/dhcpc.c:196-399 | the buffer reads `name=` and the option's text, NUL-terminated, for every option of the modelled types |
| OptionText.TextFits | components/net/udhcp/dhcpc.c:203-210 | the text is never longer than the estimate made from the option's length |
| OptionText.ReadRoute | components/net/udhcp/dhcpc.c:264-283 | reads one route or finds it bad or cut off, and only bytes of the option |
| OptionText.PrintString | components/net/udhcp/dhcpc.c:246-252 | a string as it is, a bad host name as the prefix of "bad" that fits |
| OptionReadBack.DecimalSays | components/net/udhcp/dhcpc.c:225-236 | a number's text is its decimal numeral, without leading zeros |
| OptionReadBack.IpSays | components/net/udhcp/dhcpc.c:119-122 | an address's text, split at dots, gives its four bytes |
| OptionReadBack.ElementSays | components/net/udhcp/dhcpc.c:213-245 | an element's text gives its address, pair, or number, most significant byte first, signed ones in two's complement |
| OptionReadBack.ListSays | components/net/udhcp/dhcpc.c:211-399 | a list option's text, split at blanks, gives every whole element of the option, in order |
| OptionReadBack.RoutesSay | components/net/udhcp/dhcpc.c:258-296 | the text of static routes, split at blanks and slashes, gives destination, mask and router of each |
| OptionReadBack.HostAlwaysGood | components/net/udhcp/dhcpc.c:246-252 | a script never gets a bad host name from a nonempty option, and gets the option's bytes iff they are a good one |
| OptionReadBack.StringPassedOn | components/net/udhcp/dhcpc.c:246-249 | any other string is passed on byte for byte |
| StaticRoutes.DecodeInvertsEncode | components/net/udhcp/dhcpc.c:253-296 | decoding the RFC 3442 encoding of any list of routes, and what is no route behind it, gives the list |
| StaticRoutes.EncodeInvertsDecode | components/net/udhcp/dhcpc.c:253-296 | the routes decoded from any bytes account for a prefix of them, and what is left starts with no route |
| StaticRoutes.EncodingLayout | components/net/udhcp/dhcpc.c:254-259 | an encoded route is the mask, as many destination bytes as it reaches into, and the router |
| StaticRoutes.StartsWithRouteIff | components/net/udhcp/dhcpc.c:264-283 | the decoder takes a route exactly where an encoded one stands |
| OptionChecks.Mton | components/net/udhcp/dhcpc.c:127-136 | the place of the last set bit |
| OptionChecks.MtonCountsBitsIff | components/net/udhcp/dhcpc.c:126-136 | that is the number of set bits iff the mask is a prefix's, and then its length |
| OptionChecks.MtonMiscounts | components/net/udhcp/dhcpc.c:127-136 | of the 16 bits of 255.0.255.0 it makes 24 |
| OptionChecks.ValidDomainLabel | components/net/udhcp/dhcpc.c:149-175 | the end of a label that is good, or NULL iff the one at this place is not |
| OptionChecks.GoodHostname | components/net/udhcp/dhcpc.c:179-193 | true iff every part between dots is a letter followed by letters, digits, hyphens and underscores |
| OptionChecks.NamesByBytes | components/net/udhcp/dhcpc.c:149-193 | by byte values: what begins and continues a label, and that labels between dots are never empty |
| Relay.RelayTable.Add | components/net/udhcp/dhcprelay.c:38-54 | the new entry comes first |
| Relay.RelayTable.Expire | components/net/udhcp/dhcprelay.c:56-72 | keeps exactly the entries of age at most 120, in order, ages modulo 2^32 |
| Relay.RelayTable.FindItem | components/net/udhcp/dhcprelay.c:74-84 | the first entry with the transaction id, or NULL |
| Relay.RelayTable.Delete | components/net/udhcp/dhcprelay.c:86-100 | keeps exactly the entries of other transactions, in order |
| Relay.RelayTable.PassToServer | components/net/udhcp/dhcprelay.c:193-216 | the table's step for a client's packet: recorded iff of a client's type |
| Relay.RelayTable.PassToClient | components/net/udhcp/dhcprelay.c:222-249 | the table's step for a server's packet, a failed send keeping the entry |
| Relay.RelayTable.EndTurn | components/net/udhcp/dhcprelay.c:285-370 | a turn of the loop ends with the table's expiry step |
| RelaySpec.Conservation | components/net/udhcp/dhcprelay.c:38-100 | over any run, per transaction, replies delivered plus entries held never exceed requests recorded |
| RelaySpec.TableHoldsWaiting | components/net/udhcp/dhcprelay.c:38-249 | over any run the entries are exactly the recorded requests that no delivered reply and no expiry has ended, newest first |
| RelaySpec.ReplyGoesToNewest | components/net/udhcp/dhcprelay.c:222-249 | a delivered reply goes to the client and the address of the newest waiting request of its transaction |
| RelaySpec.StepDelivers | components/net/udhcp/dhcprelay.c:222-249 | a reply of type 2, 5 or 6 that can be sent while a request of its transaction waits is delivered once, to the newest of them, by broadcast if that had no address; nothing else is delivered |
| RelaySpec.DeliveredExactly | components/net/udhcp/dhcprelay.c:222-249 | over any run the deliveries are exactly these, in order, by the events alone |
| RelayInterfaces.CountInterfaces | components/net/udhcp/dhcprelay.c:131-138 | one more than the parts between commas |
| RelayInterfaces.MakeIfaceList | components/net/udhcp/dhcprelay.c:125-158 | the list is the server's interface and then, read through the cut copy, each part between commas; the loop without an end test stops in time |
| SpiffsLayout.EntryPageEntry | components/fsal/spiffs/spiffs_nucleus.h:173-210 | a lookup entry's page is no lookup page and leads back to block and entry |
| SpiffsLayout.PageEntryPage | components/fsal/spiffs/spiffs_nucleus.h:173-210 | a page that is no lookup page has an entry in range that leads back |
| SpiffsLayout.PaddrOfPage | components/fsal/spiffs/spiffs_nucleus.h:194-201 | an address inside a page gives back the page and the offset |
| SpiffsLayout.PageOfPaddr | components/fsal/spiffs/spiffs_nucleus.h:194-201 | a page and an offset give back the address |
| SpiffsLayout.PaddrRoutesAgreeIff | components/fsal/spiffs/spiffs_nucleus.h:185-195 | both ways to the address of an entry's page agree for all entries iff pages fill blocks evenly |
| SpiffsLayout.PaddrRoutesDiffer | components/fsal/spiffs/spiffs_nucleus.h:185-195 | a layout in which they are 144 bytes apart |
| SpiffsLayout.BlocksFull | components/fsal/spiffs/spiffs_nucleus.h:172-178 | a block has as many pages as fit, and as many lookup pages as the ids of all of them fill, at least one |
| SpiffsLayout.EntriesTileBlock | components/fsal/spiffs/spiffs_nucleus.h:185-195 | the pages of a block's entries follow its lookup pages one after the other and end before the next block |
| SpiffsLayout.SpanIndexEntry | components/fsal/spiffs/spiffs_nucleus.h:230-243 | a span is the first one of its index page plus its entry there, the entry in range |
| SpiffsLayout.EntrySpanIndex | components/fsal/spiffs/spiffs_nucleus.h:230-243 | each index page and entry in range arises from exactly one span |
| SpiffsLayout.IndexPagesFull | components/fsal/spiffs/spiffs_nucleus.h:230-235 | behind either header an index page holds as many entries as fit, and not one more |
| SpiffsMagic.DisjointIff | components/fsal/spiffs/spiffs_nucleus.h:176-221 | when lookup entries, magic and erase count are disjoint in every block, in pages and entries per page |
| SpiffsMagic.CheckSound | components/fsal/spiffs/spiffs_nucleus.h:223-225 | the check is sound when a block's entries fill less than a page or whole pages |
| SpiffsMagic.CheckSoundForPowersOfTwo | components/fsal/spiffs/spiffs_nucleus.h:223-225 | in particular for power-of-two sizes |
| SpiffsMagic.CheckUnsoundIff | components/fsal/spiffs/spiffs_nucleus.h:223-225 | the layouts that pass although the regions overlap |
| SpiffsMagic.CheckUnsoundExample | components/fsal/spiffs/spiffs_nucleus.h:223-225 | one of them |
| SpiffsMagic.MagicBeforeEraseCount | components/fsal/spiffs/spiffs_nucleus.h:216-221 | the magic ends where the erase count starts, which ends at the first data page iff pages fill blocks evenly |

## Left out

- ListSort.SortSingly: the counters are unbounded, where the C code has `int`; the run length is proved to stay at most twice the number of nodes, so no overflow happens below 2^30 nodes.
- ListSort.MergePass: the three sort macros are one text here, with two switches for the test against the old head and for the `prev` links; the casts of the form without decltype are not modelled.
- SinglyEdit.Concat: the forms without decltype of concatenation and deletion are not modelled; they differ only in walking with the head and restoring it.
- DoublyEdit.InsertInOrder: its form without decltype, whose loop test is one for circular lists, is not modelled.
- Counting, searching and iterating macros: one-line walks.
- ClientLease.LeaseNeverOutlived: the bound is widened by the uncounted seconds, without which it is false (`ClockKeptIff`); runs without them have it in full (`SteadyLeaseNeverOutlived`), and `OverrunAtMost` bounds them.
- ClientLease.AddressesKeepLeasesIff: the same uncounted seconds are in its bound.
- ClientLease.SilentLease: counts the waits that the loop asks for, not the time that scripts and sends take.
- ClientLoop.DhcpClient.OnMessage: a packet is what the loop looks at in it, its options already looked up; the three seconds of sleep after a refusal are not counted.
- ClientLoop.DhcpClient.Turn: sockets, scripts and sends are a log of actions; the process id file, going to the background, `first_secs` and an error of `select` other than an interruption, which ends the program, are not modelled. The variant with an MMU is modelled, in which -b is available.
- OptionPacket.DhcpPacket.GetOption: the overload masks are four flags. In the last place of a field the C code reads the length one byte beyond it; any length is too much there, so the model reads 0. For an empty overload option in the last two places it reads the value beyond the field, where the model reads 0, here and in `fill_envp`.
- OptionPacket.DhcpPacket.EndOption: asks for a terminated field, because the C code walks without a bound.
- OptionPacket.DhcpPacket.AddSimpleOption: for a code whose length is more than four, the bytes behind the C code's buffer are a parameter.
- OptionBuilder.AddParamRequest: asks for room, because the C code does not check for it; the requests are proved to have it.
- OptionBuilder.InitPacket: the fixed fields of a message are not modelled.
- OptionEnvironment.FillEnvp: a place that was not written may hold anything, which is modelled as no pointer or any variable; a variable is what it reports; its text is a result of `OptionText` alone, the text of unknown options is not modelled, nor is the call without a message.
- OptionText.OptnameOptval: the 6RD, DNS-string and SIP types need functions that are stubs in this port; their size estimate is not claimed.
- OptionSets.FindOption: building the list is dead code here and not modelled.
- RelayInterfaces.MakeIfaceList: reads the client interfaces only.
- Relay.RelayTable.PassToServer: forwarding, sockets and the fields of a packet beyond transaction and type are not modelled; freeing entries is not either.
- SpiffsLayout.EntryPageEntry: products are unbounded, where the C macros compute in 32 bits; file operations, garbage collection and the cache are only prototypes there.
- The server, `d6_dhcpc.c`, the drivers, the flash tool and the operating-system layer are not modelled.
