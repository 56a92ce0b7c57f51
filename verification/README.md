# A verified model of the MADT server

The MADT server shows web pages in the tabs of one window. Clients connect over a socket, send JSON requests, and get
one JSON response each. This project models the parts of the server that keep state over many requests, and proves what
they promise over every run.

| module | models |
|---|---|
| `Ordering` | string order, sorting, ranks and counting, for the other modules |
| `TabPositions`, `ZoneAllocation`, `TabRuns`, `ZoneHistory` | who stands where in the tab bar: allocation, its invariant, all runs of create / navigate / kill, independence of history |
| `BrowserTabs` | the `Browser` object: page objects changed in place and the tab bar, slot by slot |
| `Shortcuts` | the shortcut positions |
| `Framing`, `JsonText` | cutting the received bytes into request texts; agreement with JSON texts (RFC 8259) |
| `Requests`, `RequestAnswers` | the request loop: dispatch, the members each handler reads, exceptions and the catch block, one response per text; the loop over the atomic server |
| `ServerBooks`, `ServerThread` | leases, owners and the extra tab on the server thread, and the handlers that change them |
| `TwoThreads`, `Lifecycle` | server thread, command queue and GUI thread as a step system; its refinement to an atomic server; what follows for clients |
| `Effects`, `Ownership` | what every request leaves in books and browser, over all runs; a tab belongs to the connection that created it |
| `ThreadSteps` | the objects of both threads put together: each callback and each queued command is one step of the step system |
| `Environment` | connection handles and clock ticks |
| `ControlNonces` | single-use, expiring nonces of control requests |
| `IconLoading` | the icon cache with its coalesced requests |
| `Scaling` | volume and backlight scaling |

How the modules hang together: `TabPositions` says what an operation does to a table of positions, `BrowserTabs` proves
that the methods on page objects do exactly that, `TwoThreads.Execute` ties the GUI thread's command execution to these
methods, and `Lifecycle` proves its results about the two threads on top. In the same way `ServerBooks` specifies the
methods of `ServerThread.Server`. `ThreadSteps` closes the gap to the step system: the server object on a request, a
reply, a tick or a closed connection, and the browser on a queued command, take the steps of `TwoThreads.Next`. The
request loop of `Requests` passes a state from one request text to the next; `RequestAnswers` puts the atomic server in
its place, whose replies are those of the two threads (`Lifecycle.RepliesAreAtomic`). The classes `ControlAccess`,
`IconLoader` and `ShortcutBoard` are each proved to take the steps of the state machine whose runs the lemmas are about.

## Where the code and its intent differ

- **An overfull zone.** The guard of `allocateZonePosition` (`madt-server/Browser.cpp:740`) rejects an empty candidate
  list only. A new tab for a zone in which no position is free, but which holds a tab of the same preference, gives one
  page more than candidates, and the dealing loops (lines 749 and 759) leave the list. The model keeps this as a third
  outcome (`OutOfRange` in the position table, `Undefined` as a result code, `Crashed` for the GUI thread) after which
  nothing is promised. `TabRuns.CreateOutcome` says exactly when it happens, for every table: no position of the zone is
  free, a tab of the same preference is live, and the bar is below its limit. `TabRuns.RunOutcome` says which runs are
  defined to their end, `ZoneHistory.CreateAllOverfills` which lists of creates are, and
  `ZoneHistory.SeventhBeginningTab` gives a run from the empty browser that is not. Navigation never gets there
  (`TabRuns.NavigatePlaces`).
- **Frames that do not start with a brace.** The scanner takes the whole rest of the buffer as one request
  (`madt-server/madt-server.cpp:529-533`), so there the cut into chunks shows. `Framing.ChunkIndependence` proves that
  the frames are independent of the cut exactly for the streams called `Steady`: every frame starts with an opening
  brace, except that the last may be a single other byte. The condition is computed by the scanner itself;
  `Framing.UnsteadyStream` gives a stream of two bytes that fails it, with the two cuts.
- **Members read unchecked.** The request loop reads the member "req" of a parsed object without a look whether it is
  there (`madt-server/madt-server.cpp:1135`), and so do seven handlers with the members they need (lines 807, 993, 1021,
  1045, 1060, 1074 and 1084). On a constant JSON value this is undefined, not an exception, so the catch block does not
  help. `Requests.UnderstandOutcome` says exactly which requests are undefined, `Requests.NeedsItsMembers` puts it in
  one line for requests without ill-typed optional members, and `Requests.EmptyObject` and `Requests.KillWithoutTab` are
  two inputs. A create with an ill-typed optional member is no such request: the exception comes first
  (`Requests.IllTypedFirst`). A fractional number that `int` cannot hold is one, since its conversion is undefined.
- **A nonce at its deadline.** Requests compare `expiresAt < now`, the pruner `expiresAt <= now`. A prune therefore
  changes a decision exactly when an acceptable token is presented at the very deadline and time of the prune, whatever
  else happens in the run (`ControlNonces.PruneChangesDecision`; `ControlNonces.PruneAtDeadline` is such a run).
- **Decimal volumes.** A decimal volume up to 100 is a percentage and a larger one is scaled, so 100 gives 100 and 101
  gives 0 (`Scaling.DecimalVolumeDrops`). `Scaling.DecimalVolumeOrder` says exactly which pairs of decimal volumes keep
  their order: both are percentages, both are scaled, or the larger one scales to no less than the percentage.
- **Backlight overflow.** `brightness * maxValue + 127` is computed in 32-bit `int`. It fits for every brightness
  exactly when `maxValue <= 8421504` (`Scaling.AllFit`); the other backlight lemmas assume that the product at hand fits.

## Assumptions

Ids drawn by libuuid are fresh and not empty, the clock does not run backwards, queued Qt calls are delivered in order
while the GUI loop runs, and the HMAC is any function. The orders in which a hash map or set is iterated are left open,
so the results hold for all of them: the orders of posted kills, of candidate pages before sorting, and so on. Undefined
behaviour is not followed beyond the point where it happens. The handlers outside this model (`Requests.Ask.Other`:
information, settings, sound, shortcuts, nonces and control requests, which check every member before they read it) send
one response each; for the others this is proved of the modelled handlers. The two arguments of the call in
`handleNavigateTo` may be read in either order, so a missing one makes the request undefined.

## Model

| member | source | states |
|---|---|---|
| Ordering.StringLessMeaning | madt-server/Browser.cpp:47-53 | the order on URLs and uuids is the lexicographic one: one string is less than another iff at the first difference it ends or has the smaller character |
| Ordering.Sort | madt-server/Browser.cpp:745-746 | sorting by a comparison of the objects' current state loses and adds nobody and leaves every pair in order |
| Ordering.SortedUnique | madt-server/Browser.cpp:745-746 | a set has one sorted listing only, so the sorting algorithm does not matter |
| ZoneAllocation.ZonesSplitTheBar | madt-server/Browser.cpp:63-91 | the three zones cover all positions, are pairwise disjoint and in order, with 6, 6 and 8 positions |
| ZoneAllocation.ZoneBounds | madt-server/Browser.cpp:63-91 | preference -2 is for positions 0 to 5, -3 for 6 to 11, -4 for 12 to 19, and nothing else is a zone |
| ZoneAllocation.KeyOrder | madt-server/Browser.cpp:47-53 | ordering tabs by URL and then uuid is a strict total order, also on tabs with the same URL |
| ZoneAllocation.KeyLessMeaning | madt-server/Browser.cpp:47-53 | a tab comes before another iff its URL does at their first difference, or the URLs are the same and its uuid does |
| ZoneAllocation.CandidatesAreAvailable | madt-server/Browser.cpp:722-743 | what is pooled and free together is the zone minus the positions held by tabs of other preferences, whoever asks and wherever the zone's tabs stood |
| ZoneAllocation.PoolSize | madt-server/Browser.cpp:722-743 | candidates exceed pages by the number of free zone positions, less one if the page is new: "enough candidates" is a question of free positions |
| ZoneAllocation.ZoneOutcome | madt-server/Browser.cpp:714-762 | a zone allocation succeeds iff the page is already in the zone or a position is free; it is refused iff the zone is full and has no tab of its kind; in the one remaining case it reads out of range |
| ZoneAllocation.DealFrame | madt-server/Browser.cpp:745-761 | a deal changes nobody's URL or preference and moves no tab of another preference |
| ZoneAllocation.DealPosition | madt-server/Browser.cpp:747-761 | each tab of the zone gets the candidate whose index is the tab's rank by (url, uuid), counted from the left, in the END zone up to the right edge |
| ZoneAllocation.DealFollowsOrder | madt-server/Browser.cpp:745-761 | of two tabs of a dealt zone the one with the smaller (url, uuid) stands further left |
| ZoneAllocation.DealApart | madt-server/Browser.cpp:745-761 | after a deal no tab of the zone shares its position with any tab at all |
| ZoneAllocation.DealRestoresInv | madt-server/Browser.cpp:714-762 | a deal turns a table with a new or renamed tab back into one where positions are distinct, zones respected, absolute tabs at their slots and all zones sorted |
| ZoneAllocation.ZoneIsPacked | madt-server/Browser.cpp:747-761 | an available position is held after a deal iff it is among the k smallest (END: k largest) available ones, k being the tabs of the zone; so no free one precedes (END: follows) any of them |
| TabRuns.CreateKeepsInv | madt-server/Browser.cpp:851-888 | a successful create keeps the invariant of the position table, for every preference |
| TabRuns.CreateOutcome | madt-server/Browser.cpp:851-888 | a create succeeds iff there is room for its preference (extra: no extra tab; any: fewer than MAX_TABS normal tabs; zone: a free zone position; absolute: that position in range and free), and reads out of range iff its zone is overfull |
| TabRuns.AnyCreateOutcome | madt-server/Browser.cpp:773-778 | capacity by counting: a create for any position succeeds iff fewer than MAX_TABS normal tabs are live |
| TabRuns.AnyTakesSmallest | madt-server/Browser.cpp:773-778 | a tab for any position gets a free one, and all positions before it are held |
| TabRuns.CreateFrame | madt-server/Browser.cpp:851-888 | a create leaves the new tab with its URL and preference, every other tab with its own, and everybody outside the new tab's zone in place |
| TabRuns.AbsoluteOutcome | madt-server/Browser.cpp:700-712 | an absolute create is granted iff nobody holds the position, and a free position implies that the limit is not reached |
| TabRuns.NormalCount | madt-server/Browser.cpp:357-373 | normal tabs and free positions add up to MAX_TABS |
| TabRuns.NavigatePlaces | madt-server/Browser.cpp:1009-1036 | navigating a live tab always succeeds, keeps the invariant, and changes only that tab's URL and positions inside its own zone |
| TabRuns.NavigateInZone | madt-server/Browser.cpp:1020-1024 | after a navigation in a zone the zone is dealt again under the new URL, in full and without running out of candidates |
| TabRuns.KillKeepsInv | madt-server/Browser.cpp:1063-1108 | a kill, forced or not, keeps the invariant and with it the order in every zone although it leaves a gap |
| TabRuns.RunKeepsInv | madt-server/Browser.cpp:851-1108 | every run of creates, navigations and kills with fresh ids keeps the invariant, from any table that has it |
| TabRuns.RunOutcome | madt-server/Browser.cpp:740-761 | a run is defined to its end iff none of its creates finds its zone overfull in the table before it |
| TabRuns.RunGuarantee | madt-server/Browser.cpp:700-789 | over all runs from an empty browser that meet no overfull zone: positions distinct and in range, zone tabs in their zone and, two of one zone, standing as their URLs differ at the first difference, or their uuids if the URLs are the same, absolute tabs at their slots, at most one extra tab, at POS_EXTRA |
| ZoneHistory.DealForgets | madt-server/Browser.cpp:714-762 | the deal of a zone does not depend on where the tabs of the zone stood before |
| ZoneHistory.DealTwice | madt-server/Browser.cpp:714-762 | allocating again, for any tab of the zone, changes nothing |
| ZoneHistory.CreateAllIsDealt | madt-server/Browser.cpp:851-888 | creating any list of tabs of one zone succeeds iff they are no more than the free positions of the zone, and ends in one deal of the zone to all of them |
| ZoneHistory.CreateAllOverfills | madt-server/Browser.cpp:740-761 | creating a list of tabs of one zone reads out of range iff they are more than the zone has free, a tab of the zone is there by the time it is full, and the bar is not full by then |
| ZoneHistory.SeventhBeginningTab | madt-server/Browser.cpp:740-761 | the witness: a run of seven BEGINNING creates from the empty browser, of which six are placed and the seventh reads out of range instead of being refused |
| ZoneHistory.OrderDoesNotMatter | madt-server/Browser.cpp:714-762 | creating the same tabs of a zone in another order succeeds alike and ends in the same tab-to-position map |
| ZoneHistory.TabMapIsInverse | madt-server/Browser.cpp:1038-1061 | the tab map is the exact inverse of the position map, and has as many filled cells as there are normal tabs |
| BrowserTabs.BrowserPage.constructor | madt-server/Browser.cpp:869-880 | a new page has its uuid, URL and preference and neither a position nor a place in the bar |
| BrowserTabs.Browser.constructor | madt-server/Browser.cpp:157-183 | a new browser has no pages and an empty bar, and satisfies the invariant every slot keeps |
| BrowserTabs.Browser.NormalPageCount | madt-server/Browser.cpp:605-615 | the counting loop gives the number of live normal tabs |
| BrowserTabs.Browser.FreePositionsInRange | madt-server/Browser.cpp:357-373 | the result lists exactly the positions of the range that no page holds, in increasing order |
| BrowserTabs.Browser.AllocateAbsolutePosition | madt-server/Browser.cpp:700-712 | the page gets its preferred position, or nobody's position has changed and the call has failed, as the position table says |
| BrowserTabs.Browser.PrepareDeal | madt-server/Browser.cpp:722-746 | pages come out with each at its rank in the pool, and candidates as the increasing list of pooled and free positions |
| BrowserTabs.Browser.AllocateZonePosition | madt-server/Browser.cpp:714-762 | the in-place zone allocation changes the page objects to the deal of the zone; when it fails, no page object has changed |
| BrowserTabs.Browser.AllocateAnyPosition | madt-server/Browser.cpp:773-778 | the page gets the smallest free position, and failure changes nothing |
| BrowserTabs.Browser.AllocateLogicalPosition | madt-server/Browser.cpp:764-789 | the dispatch over preferences refines the allocation on the position table in all its outcomes |
| BrowserTabs.MoveTabSettles | madt-server/Browser.cpp:680-698 | moving a later tab to the end of the settled prefix extends the prefix, keeps it and loses nobody |
| BrowserTabs.Browser.PagesInDisplayOrder | madt-server/Browser.cpp:339-355 | the result holds every normal page once, by increasing logical position |
| BrowserTabs.Browser.MoveTabsInto | madt-server/Browser.cpp:680-692 | the `moveTab` loop turns any arrangement of the same pages into the wanted one |
| BrowserTabs.Browser.SyncTabOrder | madt-server/Browser.cpp:680-698 | from a bar with the normal pages in any order: the bar ends in position order, every cached index is the page's rank, and no URL or position has changed |
| BrowserTabs.Browser.OnNewWebTab | madt-server/Browser.cpp:851-969 | a create does to the page objects what the position table says, the bar agrees with the positions afterwards, and a refused create leaves pages, map and bar exactly as they were |
| BrowserTabs.Browser.TakeBack | madt-server/Browser.cpp:881-886 | the rollback restores the map of pages and leaves the bar in order |
| BrowserTabs.Browser.OnNavigateTo | madt-server/Browser.cpp:1009-1036 | an unknown tab is reported and nothing changes; for a known one the page objects become the navigated table and the bar agrees with it |
| BrowserTabs.Browser.OnKillTab | madt-server/Browser.cpp:1063-1108 | a kill removes exactly its page, an unforced kill of the extra page removes nothing, every remaining page keeps its state and the bar and its indices are in order again |
| BrowserTabs.Browser.RemoveFromBar | madt-server/Browser.cpp:1085-1093 | the bar loses exactly the page's tab and keeps the others once each |
| BrowserTabs.Browser.OnGetTabMap | madt-server/Browser.cpp:1038-1061 | the filling loop gives the tab map, for which `ZoneHistory.TabMapIsInverse` is proved |
| BrowserTabs.Browser.OnBlinkTab | madt-server/Browser.cpp:1110-1144 | found iff live, and positions and bar order stay as they are |
| Shortcuts.FreeCount | madt-server/Browser.cpp:398-421 | live shortcuts and free positions add up to the maximum |
| Shortcuts.PositionOutcome | madt-server/Browser.cpp:423-445 | a position is found iff there is one for the preference, and it is then a free one |
| Shortcuts.AddOutcome | madt-server/Browser.cpp:1146-1190 | a shortcut is added iff its in-range preference is free, or without such a preference iff fewer than the maximum are live; positions stay distinct, in range and at their preferences |
| Shortcuts.AddFrame | madt-server/Browser.cpp:423-445 | a new shortcut has the preference asked for, and stands there if that is in range, else at the smallest free position; nobody else's changes |
| Shortcuts.RunKeepsBoard | madt-server/Browser.cpp:1146-1220 | every run of creates and kills keeps shortcut positions distinct and in range |
| Shortcuts.ShortcutBoard.AllocateShortcutPosition | madt-server/Browser.cpp:423-445 | the search through the free list finds the position the specification names |
| Shortcuts.ShortcutBoard.OnNewShortcut | madt-server/Browser.cpp:1146-1190 | the slot adds the shortcut the specification adds, keeps the invariant and changes nothing when disabled or refused |
| Shortcuts.ShortcutBoard.OnKillShortcut | madt-server/Browser.cpp:1192-1220 | found iff live, removes that shortcut and keeps the invariant |
| Framing.ExtractSingleJsonObject | madt-server/madt-server.cpp:518-571 | the scanning loop extracts what the recursive scanner extracts, leaves its rest, and writes no request text unless it has found one |
| Framing.SpacesAre | madt-server/madt-server.cpp:518-528 | exactly the six characters of the C locale are skipped as white space |
| Framing.ExtractSplits | madt-server/madt-server.cpp:518-571 | one extraction splits the buffer into white space, request text and rest, or clears it if it is blank and else leaves it as it is |
| Framing.FeedConserves | madt-server/madt-server.cpp:1125-1203 | whatever is sent and however it arrives, the received bytes are exactly the skipped white space, the requests and the bytes still buffered, in order |
| Framing.ObjectEndAppend | madt-server/madt-server.cpp:535-568 | the end of a completed object does not move when bytes are appended |
| Framing.ExtractAppend | madt-server/madt-server.cpp:518-571 | a completed extraction of an object is unaffected by bytes appended later; they go to the rest |
| Framing.DrainTwice | madt-server/madt-server.cpp:1125-1131 | draining a prefix and then its rest with the remaining bytes gives the frames of draining everything at once |
| Framing.ChunksDoNotMatter | madt-server/madt-server.cpp:162-173 | however a steady stream is cut, the frames are those of the stream received in one piece |
| Framing.UnsteadyCut | madt-server/madt-server.cpp:529-533 | every stream that is not steady has a cut that changes its frames |
| Framing.ChunkIndependence | madt-server/madt-server.cpp:1125-1131 | the frames of a stream are independent of all cuts iff the stream is steady |
| Framing.UnsteadyStream | madt-server/madt-server.cpp:529-533 | the witness: two bytes that are one request received together and two received apart |
| Framing.Reader.TakeText | madt-server/madt-server.cpp:1131 | a request text is taken off its connection's buffer iff it is there in full, and other connections' buffers are untouched |
| Framing.Reader.OnClose | madt-server/madt-server.h:70-74 | a later connection with the same handle starts with an empty buffer |
| JsonText.TwoMembers | scripts/madt_client_sim.py:24 | the text of an object is its members' texts with a comma between them and braces around |
| JsonText.ListExample | scripts/madt_client_sim.py:24 | the text of a list of two numbers, byte by byte |
| JsonText.PassesValue | madt-server/madt-server.cpp:535-568 | the text of any JSON value, with braces, quotes and escapes in its strings, passes the scanner without closing the object it stands in |
| JsonText.ScannerAgrees | madt-server/madt-server.cpp:535-568 | for every JSON object text after any white space and before any suffix, exactly that text is extracted and exactly that suffix is left |
| JsonText.CompletedMeans | madt-server/madt-server.cpp:1125-1131 | a message counts as complete among the first k bytes iff the stream up to its end has that many |
| JsonText.PartialMessage | madt-server/madt-server.cpp:535-568 | a message cut short anywhere, behind any white space, is not taken for a request |
| JsonText.MessagesArrive | scripts/madt_client_sim.py:24 | at every moment, with any white space between and behind the messages and however the bytes are cut, exactly the messages complete by then have been taken, in order |
| JsonText.AllArrive | scripts/madt_client_sim.py:24 | when all bytes of the messages are there, all messages are complete |
| Requests.ToInt | madt-server/madt-server.cpp:832 | a wider integer keeps its lower 32 bits and an `int` its value |
| Requests.UnderstandOutcome | madt-server/madt-server.cpp:1133-1202 | a request makes an undefined access iff it is an object without "req" or one whose handler gets to a member that is not there or to a number `int` cannot hold |
| Requests.UnderstandMeans | madt-server/madt-server.cpp:803-1096 | a request is read as something iff its members say that: the kind its "req", each id, URL and number the member of that name with its default, a listing only with an empty or matching password |
| Requests.NeedsItsMembers | madt-server/madt-server.cpp:987-1096 | a request without ill-typed optional members is undefined iff a member its handler needs is missing |
| Requests.ServedOnce | madt-server/madt-server.cpp:1131-1203 | a sequence of request texts is served to its end iff each is readable and its work is defined in the state it meets; then each has got exactly one response, in order, the one its state and text call for |
| Requests.ServedInTurn | madt-server/madt-server.cpp:1131-1203 | a refused text has changed nothing, any other has been worked on for its connection in the state the one before has left, and its response is what that work reports |
| Requests.ServedByText | madt-server/madt-server.cpp:1131-1203 | with handlers whose work is always defined, a sequence is served to its end iff none of its texts is a defective object |
| Requests.ServeAppend | madt-server/madt-server.cpp:1131-1203 | serving in two goes is serving in one, and after an undefined request nothing is served |
| Requests.CutsDoNotShow | madt-server/madt-server.cpp:162-173 | however a steady stream is cut, the same responses are sent in the same order, and the same state is reached |
| Requests.EmptyObject | madt-server/madt-server.cpp:1135 | the witness: the text "{}" is one request and undefined |
| Requests.KillWithoutTab | madt-server/madt-server.cpp:1074 | the witness: {"req":"KillTab"} is undefined although it has a "req" |
| Requests.IllTypedFirst | madt-server/madt-server.cpp:990-993 | {"req":"NewWebTab","flags":"x"} is refused although "url" is missing, because the ill-typed member is read first |
| Requests.RequestServer.HandleNewWebTab | madt-server/madt-server.cpp:987-1013 | an ill-typed member ends the handler by an exception with nothing sent and the state as it was, a missing "url" is undefined, and otherwise the work is done and one response sent |
| Requests.RequestServer.HandleIAmAlive | madt-server/madt-server.cpp:818-867 | a missing or ill-typed TTL, and both ids or none, are refused with one response; otherwise the TTL's lower 32 bits and the one id are worked on |
| Requests.RequestServer.Dispatch | madt-server/madt-server.cpp:1135-1198 | every "req" gets to its handler, an unknown one is refused, and at most one response is sent, none before an exception |
| Requests.RequestServer.HandleText | madt-server/madt-server.cpp:1132-1202 | with the catch block exactly one response is sent for a text, whatever is thrown, unless it is undefined |
| Requests.RequestServer.OnChunk | madt-server/madt-server.cpp:1125-1203 | a chunk completes exactly the texts of old buffer and chunk, each is served once and in order in the state the one before has left, the rest is buffered, other buffers are untouched, and the loop ends; a text that is undefined is reported iff there is one |
| RequestAnswers.WorkOutcome | madt-server/madt-server.cpp:987-1096 | on a sound server a handler's work is defined iff it is no new tab for an overfull zone, and leaves the server sound |
| RequestAnswers.WebTabUrlMeans | madt-server/madt-server.cpp:401-411 | the tab id goes behind the URL as a query iff the flag for it is set, behind the query the URL already has |
| RequestAnswers.WorkTakesEffect | madt-server/madt-server.cpp:803-1096 | on a sound server every request does what it asks for, to that tab or shortcut, for that connection, and to nothing else |
| RequestAnswers.ServedByServer | madt-server/madt-server.cpp:1131-1203 | on a sound server a sequence of texts is served to its end iff no text is defective and none asks for a tab in a zone overfull at its turn; then there is one response for each and the server is sound again |
| RequestAnswers.EqualTextsDiffer | madt-server/madt-server.cpp:987-1013 | the same text twice: the extra tab is granted the first time and refused the second |
| ServerBooks.RememberKeepsPartition | madt-server/madt-server.cpp:227-237 | remembering a new tab keeps the owners' sets nonempty, disjoint and together the leased tabs |
| ServerBooks.ForgetKeepsPartition | madt-server/madt-server.cpp:239-257 | so does forgetting one, owners left with nothing being dropped |
| ServerBooks.CloseForgetsOwn | madt-server/madt-server.cpp:294-314 | a close forgets exactly the connection's own tabs, touches no other lease and no other owner, and leaves the handle owning nothing |
| ServerThread.ExpiredIds | madt-server/madt-server.cpp:634-642 | the loop over the leases lists each id whose deadline is reached once and no other |
| ServerThread.Server.RememberOwnedTab | madt-server/madt-server.cpp:227-237 | the in-place update of leases and owners is the specified one, the empty id being ignored |
| ServerThread.Server.ForgetOwnedTab | madt-server/madt-server.cpp:239-257 | the tab leaves leases, extra id and every owner, and empty owners go |
| ServerThread.Server.EraseOwnedTabs | madt-server/madt-server.cpp:294-314 | one forced kill is posted for each tab of the connection and all of them are forgotten; with lifetime by connection off nothing happens |
| ServerThread.Server.EraseConnection | madt-server/madt-server.h:72 | the connection's set of tabs goes and every other one stays |
| ServerThread.Server.PruneExpiredTabs | madt-server/madt-server.cpp:634-660 | exactly the expired tabs and shortcuts are forgotten, with one posted kill for each |
| ServerThread.Server.BeginRequest | madt-server/madt-server.cpp:832-866 | a handler of tabs or shortcuts up to its answer or its wait: negative TTLs and unleased ids are answered at once, a TTL grants a deadline, everything else posts one synchronous command |
| ServerThread.Server.FinishRequest | madt-server/madt-server.cpp:277-292 | a handler after the reply: books change only on success, as specified for the command |
| TwoThreads.Execute | madt-server/gui.cpp:344-364 | the GUI thread's slots, on page objects and shortcuts, do and reply what the step system's command execution says |
| TwoThreads.ReceiveSimulates | madt-server/madt-server.cpp:987-1013 | receiving a request in the two-thread system is the atomic request on the abstract state, whatever is still queued |
| TwoThreads.PostingSimulates | madt-server/madt-server.cpp:277-314 | a prune or close that posts its kills and forgets at once is the atomic one in which the kills have happened |
| TwoThreads.GuiStepStutters | madt-server/gui.cpp:344-364 | a GUI step changes nothing in the abstract state |
| TwoThreads.ResumeStutters | madt-server/madt-server.cpp:277-292 | neither does the waiting handler's continuation |
| TwoThreads.Refines | madt-server/madt-server.cpp:277-314 | every run of the two threads, for every interleaving, is a run of the atomic server on its requests, prunes and closes |
| ThreadSteps.OnRequest | madt-server/madt-server.cpp:818-867 | the server object on a request takes the step of the two-thread system: books, posted commands, phase and log |
| ThreadSteps.OnReply | madt-server/madt-server.cpp:277-292 | the handler woken by its reply takes the resuming step, with the logged answer as its own |
| ThreadSteps.OnTick | madt-server/madt-server.cpp:634-660 | a timer tick takes an enabled prune step, in whatever order the iteration has |
| ThreadSteps.OnEnd | madt-server/madt-server.cpp:175-186 | the callback of a closed connection takes an enabled close step, and the handle is left with no tabs and an empty buffer |
| ThreadSteps.CreatesAreFresh | madt-server/Browser.cpp:851-888 | in every run of the two threads no create reaches the browser with an id that is already there |
| ThreadSteps.OnCommand | madt-server/gui.cpp:344-364 | the browser objects on the next queued command take the GUI step, and the waiting handler's slot gets the reply |
| Lifecycle.AtomicRunKeeps | madt-server/madt-server.cpp:987-1013 | over all atomic runs live tabs are the leased ones, extra tabs agree, owners partition the leases and every lease is the last one granted |
| Lifecycle.RunKeeps | madt-server/madt-server.cpp:634-660 | the same for every reachable state of the two threads, through its abstract state |
| Lifecycle.QueuedKillsMeetLeases | madt-server/madt-server.cpp:277-314 | whenever the server is idle, carrying out the queued kills leaves exactly the leased tabs and shortcuts |
| Lifecycle.WaitingMeetsLeases | madt-server/madt-server.cpp:277-292 | whenever it waits, carrying out the kills before its command leaves exactly the leased tabs and shortcuts, even if the command is undefined; and so does the command with the books as its reply will leave them |
| Lifecycle.PruneKeepsDeadlines | madt-server/madt-server.cpp:634-660 | in every run a prune ends a lease iff the deadline last granted for it has been reached, and leaves the value of every other lease |
| Lifecycle.RepliesAreAtomic | madt-server/madt-server.cpp:277-292 | whatever is queued and however the GUI gets through it, the client's reply is the one the atomic server gives at once |
| Lifecycle.WaitEnds | madt-server/madt-server.cpp:277-292 | a waiting server comes back once the GUI has taken the queued commands |
| Lifecycle.LeasedIsFound | madt-server/madt-server.cpp:818-867 | a request about a tab or shortcut is answered OK iff it is leased and INVALID_TAB otherwise; a negative TTL is refused and changes nothing |
| Lifecycle.NewTabAnswer | madt-server/madt-server.cpp:987-1013 | a new tab is answered OK iff there is room for its preference, for an extra tab iff the server knows of none, and has no answer iff its zone is overfull |
| Effects.NewTabEffect | madt-server/madt-server.cpp:987-1013 | a create answered OK leaves the tab with the URL and preference asked for, an unlimited lease, owned by its connection; a refused one leaves no trace |
| Effects.NavigateEffect | madt-server/madt-server.cpp:803-816 | a navigation takes a leased tab to its URL, and leaves books, other tabs' URLs, all preferences and positions outside the tab's zone as they are |
| Effects.LookEffect | madt-server/madt-server.cpp:1041-1069 | blinking and listing change nothing |
| Effects.KillEffect | madt-server/madt-server.cpp:1071-1078 | a client's kill removes a normal tab from browser, leases and owners, and nothing for an unknown or the extra one |
| Effects.AliveEffect | madt-server/madt-server.cpp:838-853 | a keep-alive sets the one deadline to so many seconds from now, with TTL 0 ends the tab, and changes nothing when refused |
| Effects.NewShortcutEffect | madt-server/madt-server.cpp:1015-1039 | a shortcut is accepted iff shortcuts are enabled and a position is there for it; then it is there with its preference and an unlimited lease, and otherwise nothing changes |
| Effects.KillShortcutEffect | madt-server/madt-server.cpp:1080-1096 | a leased shortcut leaves board and leases, and nothing changes for an unknown one |
| Effects.ShortcutAliveEffect | madt-server/madt-server.cpp:856-866 | the same as for tabs: one deadline, the end with TTL 0, or nothing |
| Effects.RunEffect | madt-server/madt-server.cpp:277-292 | in every run, once a request is answered, it has done what it does on the atomic server, whatever was queued |
| Effects.NavigateInRun | madt-server/madt-server.cpp:803-816 | in every run a leased tab whose navigation has been answered is shown at its URL, and the others at theirs |
| Effects.NewTabInRun | madt-server/madt-server.cpp:987-1013 | in every run a create answered OK has the tab in the browser with the URL and preference asked for |
| Ownership.AtomicRunKeepsCreators | madt-server/madt-server.cpp:227-257 | over all atomic runs with lifetime by connection a leased tab is owned by a connection iff that one created it |
| Ownership.OwnerIsCreator | madt-server/madt-server.cpp:227-237 | the same for every idle state of the two threads, and every leased tab has a creator |
| Ownership.CloseTakesCreated | madt-server/madt-server.cpp:294-314 | in every run a close kills and forgets exactly the leased tabs its connection created |
| Lifecycle.KillHidesExtra | madt-server/madt-server.cpp:1071-1078 | a client's kill of the extra tab is answered OK and removes nothing from books or browser |
| Lifecycle.EndRemoves | madt-server/madt-server.cpp:818-867 | a kill or a TTL of 0 removes its tab from books, browser and owners and touches no other |
| Lifecycle.MapShowsLeases | madt-server/Browser.cpp:1038-1061 | the tab map a client gets shows exactly the leased tabs other than the extra one, once each |
| Lifecycle.CloseInRun | madt-server/madt-server.cpp:175-186 | in every run a close forgets and kills exactly its connection's tabs, and the next user of the handle owns none |
| Lifecycle.RunReplies | madt-server/madt-server.cpp:987-1013 | in every run, with any kills still queued: a leased tab is never answered INVALID_TAB, and an extra tab is accepted iff the server has forgotten the old one |
| Lifecycle.EveryRequestAnswered | madt-server/madt-server.cpp:1125-1203 | in every run the log answers exactly the requests received, each once and in order of arrival, but for the one whose handler is waiting |
| ControlNonces.ControlAccess.AuthorizeControlRequest | madt-server/madt-server.cpp:354-399 | without a key the password decides and nonces stay; with one a request passes iff its nonce is live and the HMAC matches, which uses the nonce up, a dead nonce is dropped and a live one survives a failure |
| ControlNonces.ControlAccess.HandleGetRandom | madt-server/madt-server.cpp:704-732 | refused without a key, an error without randomness, both with all nonces as they were; otherwise the nonce told to the client is stored unused, to expire one TTL later, and the others stay |
| ControlNonces.ControlAccess.PruneNonces | madt-server/madt-server.cpp:662-668 | exactly the used nonces and those at or past their deadline go |
| ControlNonces.EveryEntryWasIssued | madt-server/madt-server.cpp:704-732 | in every run each stored nonce has value and deadline of the request that issued it |
| ControlNonces.NonceSafety | madt-server/madt-server.cpp:354-399 | in every run a nonce authorizes at most one request, issued before it, no later than issue time plus TTL in seconds, and with the HMAC over the four lines request name, nonce id, nonce and time |
| ControlNonces.MessageIsLines | scripts/madt_client_sim.py:46 | the server signs what the client signs: request name, nonce id, nonce and time, joined by newlines |
| ControlNonces.MessageIsInjective | madt-server/madt-server.cpp:389-390 | the signed message tells all its four parts, if the first three are single lines |
| ControlNonces.TokenBinds | madt-server/madt-server.cpp:389-394 | with a MAC without collisions, a token made for one request and time is accepted for no other |
| ControlNonces.AttemptEffect | madt-server/madt-server.cpp:383-398 | an attempt touches its own nonce only: gone if it was not live, used if let through, else as it was |
| ControlNonces.PruneEffect | madt-server/madt-server.cpp:662-668 | a prune keeps exactly the unused nonces whose deadline is still to come, as they are |
| ControlNonces.FailedAttemptKeepsLive | madt-server/madt-server.cpp:383-398 | a failed attempt leaves every live nonce as it is |
| ControlNonces.PruneChangesDecision | madt-server/madt-server.cpp:662-668 | a prune anywhere in a run changes a later decision, whatever happens in between, iff the token comes at the prune's own time, is acceptable without it, and its nonce was there at the prune with that time as its deadline |
| ControlNonces.LaterDecisionsStand | madt-server/madt-server.cpp:662-668 | a prune changes no decision later than itself |
| ControlNonces.PruneAtDeadline | madt-server/madt-server.cpp:662-668 | the witness: a run in which an honest request at the deadline is refused after a prune and let through without it |
| ControlNonces.HonestTokenAccepted | scripts/madt_client_sim.py:39-54 | in every run a token over the client's own newline join from an issued nonce is accepted before the deadline, unless that nonce has already authorized a request |
| IconLoading.IconLoader.LoadIcon | madt-server/IconLoader.cpp:18-58 | the in-place method takes the step of the state machine: an invalid URL and a cached key call back at once, anything else waits, and only the first waiter starts a fetch |
| IconLoading.IconLoader.OnFinished | madt-server/IconLoader.cpp:36-57 | completion caches the icon and calls all waiting callbacks in order |
| IconLoading.RunKeepsKeys | madt-server/IconLoader.cpp:18-58 | in every run a key is fetched at most once, is pending with a nonempty list iff in flight, and cached iff finished |
| IconLoading.RunConserves | madt-server/IconLoader.cpp:18-58 | in every run the callbacks asked for with a URL are exactly those called so far followed by those waiting, in order |
| IconLoading.CalledWithFetched | madt-server/IconLoader.cpp:18-58 | every callback gets the icon that the fetch of its key has brought, or none for an invalid URL |
| IconLoading.IconGuarantee | madt-server/IconLoader.cpp:18-58 | over all runs: one fetch per key, every callback called exactly once when no fetch is in flight, and all callbacks of a key get the same icon |
| Scaling.NearestIsRobust | madt-server/runtime-config.cpp:384-411 | any quotient within 1/(2M) of the exact one rounds to the same nearest integer, so floating-point error in the division cannot show |
| Scaling.VolumeBounds | madt-server/runtime-config.cpp:384-411 | the percentage is in [0, 100]: 100 for what is no number, a decimal up to 100 as it is, otherwise the nearest integer, never a tie |
| Scaling.DecimalVolumeDrops | madt-server/runtime-config.cpp:384-411 | the witness: decimal volume 100 gives 100 and 101 gives 0 |
| Scaling.DecimalVolumeOrder | madt-server/runtime-config.cpp:384-411 | of two decimal volumes the larger is at least as loud iff both are percentages, both are scaled, or 2M times the smaller is at most 200 times the capped larger plus M |
| Scaling.VolumeMonotone | madt-server/runtime-config.cpp:384-411 | the scaled branch is monotone and takes 0 to 0 and the 32-bit maximum to 100 |
| Scaling.AllFit | madt-server/gui.cpp:157 | no brightness overflows iff the maximum is at most 8421504 |
| Scaling.BacklightNearest | madt-server/gui.cpp:157 | the scaled brightness is off by less than one half, is in range, and hits both ends |
| Scaling.BacklightMonotone | madt-server/gui.cpp:157 | brighter is never darker, and different brightnesses stay different when the maximum is at least 255 |

## Left out

- Widgets, icons' pixels, geometry of the extra zone, show / hide / raise, JavaScript injection and screenshots: user interface. Of the tab widget only the bar as a sequence of pages is kept.
- Sockets, libevent, watchdog, process setup and logging: only "a chunk arrives", "the connection closes" and "the timer ticks" are kept.
- Avahi and DNS-SD: foreign callbacks.
- OpenSSL, base64, libuuid and nlohmann JSON: the HMAC is any function, ids are fresh, and parsing is any function from request texts to JSON values or an exception.
- The handlers behind `Requests.Ask.Other`: they check every member before they read it, and what they report is any function of the request and of what was drawn so far.
- Icon callbacks that load icons themselves: a callback takes no step of the loader here.
- Settings: loading, validation, merging and applying them, field by field; parsing of the volume string (`Scaling.Parsed` is its result).
- `GetCharacteristics` and the listing of shortcuts: the first reads the widget from the server thread outside the queue, the second is a sorted copy.
- Sound flags and blink timer; activating a tab, which finds its tab as blinking does and moves none.
- A GUI that has not started or shuts down while the server waits: commands are executed as long as the GUI loop runs.
- 32-bit wrap-around of the scanner's depth counter and of tick arithmetic: unbounded integers here.
- `std::sort` is an insertion sort here and the second sort of the END candidates is dropped, since they are sorted already; a sorted listing is unique (`Ordering.SortedUnique`).
- BrowserTabs.Browser.OnNewWebTab: promises nothing about the page objects when the result is `Undefined`, because the source has then read outside its candidate list.
- TwoThreads.Refines: says nothing about what follows a read outside the candidate list; the waiting server and the atomic one both stop there.
- ServerThread.Server.BeginRequest: has no case for sound, settings, information, stop, restart and screenshot requests, none of which touches leases, owners or the extra tab; nonces of control requests are in `ControlNonces`, and what a request needs to get here is in `Requests`.
- Requests.CutsDoNotShow: is about one connection on its own; prunes and other connections between two chunks may change the state the second one meets.
