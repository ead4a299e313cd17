# twfinder, modelled in Dafny

twfinder crawls the Twitter social graph to find accounts that match a search.
It starts from one user and pages through the accounts that user follows and
the accounts that follow the user. For each account it:

- skips accounts it has already seen, using a process-wide dedup cache;
- checks the account against a list of filters compiled once from the
  configured search criteria (keywords, follower and tweet counts, join
  date, verified flag);
- forwards the accounts that match;
- when the run is recursive, queues accounts for their own lists to be
  crawled, in a bounded investigation queue that drops ids when it is full.

The repository also embeds a small server-side GUI framework (a fork of
gowut). It covers:

- component ids and their text form;
- container components: panels, tab panels, expanders and links;
- sessions with their windows and attributes;
- a Writer that serialises values into an `io.Writer`;
- the server that derives its URL, routes request paths and encodes the
  response to a browser event.

This project models both parts:

- One Dafny module per Go file of the core, plus shared helper modules:
  - `Text`: a slice of `strings` and `html`;
  - `Decimal`: `strconv.Itoa`/`Atoi` on 64-bit ints;
  - `Seqs`: slice splicing and filtering;
  - `Wrappers`: Option and Result.
- Objects whose fields the Go code updates in place are classes:
  - the dedup cache, the finder and the pipeline's buffers;
  - panels, tab panels, expanders, links;
  - sessions, the server, the id generator, the writer and its sink.
- Their methods carry `modifies` clauses and state their whole new state.
  For the tab panel that includes the classes of every cell formatter it
  keeps, stated as a map from child id to classes (`ClassesOf`).
- Pure conversions and decisions are functions.
- The properties the code and its comments promise are proved as contracts
  and lemmas.

Outside inputs become parameters:

- The Twitter API is an oracle from (list, query parameters) to a page or
  an error.
- `time.Parse` is a function parameter.
- The secure random source is the byte sequence it produced.
- The clock is an integer.
- The `io.Writer` behind a Writer is a `Sink` with a finite room. It takes
  what fits and reports a short write as an error.

The model follows the code as written, including where it does less than a
reader might expect:

- The code has no exclusion prefix for keywords: `"-bot"` is searched for literally
  (`Finder.NoNegativeKeywords`).
- The code does not exclude protected accounts.
- A keyword filter is registered only when its list has more than one entry.
- The lists filter is registered by the lists range, but it tests the
  statuses count against the tweets range (`Finder.ListsFilterIsTweetsFilter`).
- `UserFollowersFollowing` sends whole user records (request/users.go:98-100).
  pipeline/manager.go:81 and :90 pass it the int64 id channel. The model
  follows request/users.go and returns the users sent.

## Model

| member | source | states |
|---|---|---|
| Storage.DedupCache.constructor | storage/cache.go:8-11 | initializeCache: the cache is empty and its size is 0 |
| Storage.DedupCache.CheckIDExist | storage/cache.go:14-22 | answers true exactly when the id was already recorded as true. Otherwise it records the id as true and answers false. No other key is added or changed, and the size grows by one exactly when the answer is false |
| Storage.CheckStep | storage/cache.go:14-22 | one call: the answer is whether the id was seen, the id is seen afterwards, and every other key keeps its presence and value |
| Storage.CheckStepSize | storage/cache.go:14-27 | CacheSize grows by exactly one when the answer is false and is unchanged when it is true; every stored value stays true |
| Storage.ReplayKeys | storage/cache.go:14-22 | from an empty cache, after a run of calls the keys are exactly the ids checked, all mapped to true |
| Storage.ReplayFromEmpty | storage/cache.go:14-22 | from an empty cache, the k-th call answers true exactly when the same id occurs among the earlier calls: false the first time, true every later time |
| Storage.ReplaySeen | storage/cache.go:14-22 | after a run of calls, an id reads as seen exactly when it was seen before or was among the ids checked |
| Storage.ReplayPrefix | storage/cache.go:14-22 | the answers to a prefix of the calls are the prefix of the answers |
| Storage.Replay | storage/cache.go:14-22 | a run of CheckIDExist calls: one answer per id checked, each call made on the cache the previous one left |
| Storage.CheckTwice | storage/cache.go:14-22 | checking the same id twice in a row answers true the second time and leaves the cache as the first check left it |
| Config.StringToDate | helpers/helper.go:6-11 | the parsed time when time.Parse succeeds, the zero time when it fails |
| Finder.Finder.BuildSearchCriteria | finder/finder.go:69-117 | the first call stores the criteria and appends exactly Registered(c); every later call changes nothing (sync.Once) |
| Finder.Finder.RegisterKeywordFilters | finder/finder.go:72-87 | the four keyword checks append exactly the first four steps of Registered(c) |
| Finder.Finder.RegisterCountFilters | finder/finder.go:88-107 | the five count checks append exactly the next five steps of Registered(c) |
| Finder.Finder.RegisterProfileFilters | finder/finder.go:108-115 | the join-date and verified checks append the last two steps of Registered(c) |
| Finder.Finder.Register | finder/finder.go:73-75 | one guarded append: the filter is added exactly when its part of the criteria is active |
| Finder.RegisteredExactly | finder/finder.go:69-117 | a filter is registered iff its criterion is active: a keyword list with more than one entry, From>0 or To>0, a non-zero date bound, or Verified set |
| Finder.RegisteredUpToExactly | finder/finder.go:69-117 | among the first k checks, a filter is registered iff it is active and its check is one of them |
| Finder.RegisteredDistinct | finder/finder.go:69-117 | filters are registered in the fixed check order and none twice |
| Finder.RegisteredUpToOrdered | finder/finder.go:69-117 | the first k checks register filters in strictly increasing check order |
| Finder.EmptyCriteriaRegisterNothing | finder/finder.go:69-117 | blank criteria register no filter |
| Finder.Rank | finder/finder.go:69-117 | each filter's position in the check sequence is below the number of filter kinds |
| Finder.FilterAt | finder/finder.go:69-117 | the k-th check considers the filter of rank k |
| Finder.Finder.CheckUser | finder/finder.go:49-66 | true iff every registered filter passes (so true with none registered); the passing filters' tags are collected in filter order |
| Finder.PassedNamesAppend | finder/finder.go:52-59 | one more filter adds its tag to the passed list exactly when it passes |
| Finder.NoFiltersMatchAll | finder/finder.go:49-66 | with no filters registered every user matches |
| Finder.Finder.CheckUserList | finder/finder.go:38-46 | exactly the users CheckUser accepts, in input order |
| Finder.Finder.RunFilter | finder/finder.go:119-261 | a registered filter returns its own tag and the verdict of its criterion on the user |
| Finder.KeywordFilter | finder/finder.go:119-162 | passes iff some keyword, lower-cased, is a substring of the lower-cased field |
| Finder.KeywordFoundAnywhere | finder/finder.go:119-129 | one keyword found in the field at any position, in any letter case, makes the filter pass |
| Finder.NoNegativeKeywords | finder/finder.go:119-129 | a keyword starting with '-' matches exactly the fields containing it literally, so a field containing k but not "-k" is not matched by "-k"; there is no exclusion meaning |
| Finder.NegativeKeywordNotExcluding | finder/finder.go:119-129 | the field "k" matches the keyword "k" and not the keyword "-k" |
| Finder.CountFilter | finder/finder.go:164-237 | passes iff the count is strictly above From (when From>0) and strictly below To (when To>0) |
| Finder.CountBoundsExclusive | finder/finder.go:164-222 | with both bounds set, a count passes iff From < count < To, so From and To themselves fail |
| Finder.ListsFilterIsTweetsFilter | finder/finder.go:209-237 | the lists filter gives the tweets filter's verdict on every user |
| Finder.JoinedCheck | finder/finder.go:239-253 | passes iff the join time in Unix seconds is strictly inside the non-zero bounds; an unparseable date is the zero time and fails any real lower bound |
| Finder.VerifiedCheck | finder/finder.go:255-261 | fails iff verification is required and the user is not verified |
| Pipeline.AssembleBatch | pipeline/manager.go:55-64 | a complete batch holds exactly patchSize ids: the ids received that the cache had not seen, in arrival order. A seen id takes no slot, and the cache is updated by every id received. It stops right after the id that fills the last slot: before that id fewer than patchSize had passed, so no id is received beyond it. Running out of input reports an incomplete batch holding all the unseen ids |
| Pipeline.UnseenFresh | pipeline/manager.go:55-64 | a batch holds only ids that arrived and were unseen, every such id, and none twice |
| Pipeline.UnseenStep | pipeline/manager.go:58-63 | one more id received extends the cache by one check and the batch by that id when it was unseen |
| Pipeline.Unseen | pipeline/manager.go:57-63 | the ids of a run that CheckOldUser lets into the batch: never more than the ids received |
| Pipeline.ShouldExpand | pipeline/manager.go:118 | the user is queued for expansion iff Recursive && (!RecursiveSuccessUsersOnly \|\| valid) |
| Pipeline.Pipeline.constructor | pipeline/manager.go:28-35 | NewPipeline: every channel is empty |
| Pipeline.Pipeline.TryPushInvest | pipeline/manager.go:120-124 | the push succeeds iff fewer than 1000 ids are buffered. On success the id is queued last and recorded as investigated; on failure it is dropped and nothing changes |
| Pipeline.Pipeline.CheckValidateUser | pipeline/manager.go:112-124 | a matching user is forwarded. The user's id is queued exactly when the recursion predicate holds and the queue has room, and without recursion nothing is queued |
| Pipeline.Pipeline.CheckValidateUsers | pipeline/manager.go:108-127 | over a run of users, exactly the matching ones are forwarded, in order. The queue becomes Pushed of the old queue: each selected id is queued while there is room and dropped otherwise. The investigating set gains exactly the queued ids, and the queue never exceeds its capacity |
| Pipeline.PushedIsCappedExpansion | pipeline/manager.go:118-124 | the queue keeps its old ids and gains the ids the recursion predicate selects, in order, cut off at the capacity |
| Pipeline.NoRecursionNoExpansion | pipeline/manager.go:118 | without recursion no id is selected for expansion |
| Pipeline.Pipeline.InvestigateNext | pipeline/manager.go:86-104 | the oldest queued id is taken and removed from the investigating set before its lists are requested. Only a non-ApiError error leads to one retry, whose users are also sent |
| Pipeline.Handle | pipeline/manager.go:91-104 | a non-ApiError failure gets exactly one retry, whose failure skips the user. A rate-limit ApiError waits until the next window without retry, and any other ApiError gets no retry |
| Pipeline.HandleBounds | pipeline/manager.go:91-104 | a user is requested at most twice, a rate limit never leads to a retry, and success needs one call |
| Request.BaseParams | request/users.go:81-87 | user_id is set iff userID≠0 (to its decimal text), screen_name iff username≠"", and nothing else |
| Request.QueryParams | request/users.go:81-87 | builds exactly BaseParams |
| Request.UserFollowersFollowing | request/users.go:78-127 | the calls made, the users sent and the error returned are those of Crawl: the following list when asked for, then the followers list unless the first one failed |
| Request.PageThrough | request/users.go:89-106 | one cursor loop makes exactly the calls and sends exactly the users of Listing from cursor "-1" |
| Request.Listing | request/users.go:91-105 | the reference paging of one list: the first call asks for the given cursor, and every call goes to the same list |
| Request.Crawl | request/users.go:78-127 | the reference crawl: no call at all exactly when neither list is asked for, and otherwise the first call is the following list (if asked for, else the followers list) at cursor "-1" |
| Request.ListingCalls | request/users.go:91-105 | a listing starts at the given cursor and asks for each page's Next_cursor_str in turn. Every page but the last was answered and named a cursor other than "0"; the last was an error, which is returned, or named "0" |
| Request.ListingUsers | request/users.go:98-100 | a listing sends out exactly the users of its answered pages, in page order |
| Request.CrawlOrder | request/users.go:89-125 | the following list is paged completely before any followers call. A list is asked for only when its flag is set, and always from cursor "-1" |
| Request.CrawlUsers | request/users.go:98-100 | every user of every page answered is sent out, in page order, across both lists |
| Request.CrawlErrorAborts | request/users.go:95-97 | the first error ends the call: it is the answer to the last call made and every earlier call was answered. A call without error had every request answered |
| Request.ThenAssoc | request/users.go:78-127 | running three parts in sequence does not depend on grouping |
| Request.PagesUsersConcat | request/users.go:98-100 | the users of two runs of calls are the users of the first followed by those of the second |
| Request.Send | request/users.go:98-100 | the users of a page are sent after those already sent, in page order |
| Request.CheckUsersLookup | request/users.go:13-25 | a lookup error is returned as is; otherwise the looked-up users CheckUser accepts, in order |
| Text.ToLower | finder/finder.go:122 | each ASCII capital letter is replaced by its lower-case letter; everything else is kept |
| Text.Contains | finder/finder.go:122 | true iff the substring occurs at some index |
| Text.Split | gui/server/server.go:585 | at least one part, no part holds the separator, and the parts joined by the separator give the path back |
| Text.SplitJoin | gui/server/server.go:585 | splitting the join of separator-free parts gives the parts back |
| Text.SplitCons | gui/server/server.go:585 | a leading separator-free part followed by the separator comes off first |
| Text.EscapeString | gui/server/writer.go:157-159 | html.EscapeString: no '<', '>', quote or apostrophe is left, and the text never gets shorter |
| Text.EscapeRoundTrip | gui/server/writer.go:157-159 | unescaping the escaped text gives the text back |
| Decimal.Itoa | gui/server/id.go:18-20 | strconv.Itoa: a '-' exactly for a negative value, then the digits without leading zeros |
| Decimal.Atoi | gui/server/id.go:23-30 | strconv.Atoi: fails on the empty string, a lone sign and a leading non-digit; any value is within 64 bits |
| Decimal.AtoiItoa | gui/server/id.go:18-30 | parsing the text of a 64-bit value gives the value back |
| Decimal.ItoaInjective | gui/server/id.go:18-20 | two values never share a text |
| Ids.IdString | gui/server/id.go:18-20 | the id's base-10 text, which parses back to the id |
| Ids.AtoID | gui/server/id.go:23-30 | the parsed id on success; ID(0) and a failure exactly when Atoi fails |
| Ids.AtoIDString | gui/server/id.go:18-30 | AtoID(id.String()) gives (id, no error) |
| Ids.IdStringInjective | gui/server/id.go:18-20 | different ids have different texts |
| Ids.AddWrap | gui/server/id.go:40 | atomic.AddInt64: the plain sum while it fits in 64 bits |
| Ids.IdGen.NextCompID | gui/server/id.go:34-41 | one more than the last id (64-bit wrap-around included). Until the counter wraps, the new id was never handed out before |
| Ids.IdGen.constructor | gui/server/id.go:35 | the counter starts at 0 with no id handed out |
| Ids.FirstIds | gui/server/id.go:37-41 | a fresh counter hands out 1, then 2 |
| Seqs.FirstIndex | gui/server/panel.go:217-224 | the index of the first equal element, or -1 exactly when there is none |
| Seqs.RemoveAt | gui/server/panel.go:156-159 | the element at the index is cut out, and the others keep their order |
| Seqs.InsertAt | gui/server/panel.go:257-259 | the element sits at the index, the ones before are unchanged, and the ones after shift right by one |
| Seqs.Filter | finder/finder.go:38-46 | exactly the elements that pass, and no others |
| Seqs.FilterAppend | finder/finder.go:40-44 | appending one element appends it to the result exactly when it passes |
| Seqs.FilterDistinct | pipeline/manager.go:110-116 | filtering keeps a run free of duplicates |
| Comps.FindIn | gui/server/panel.go:167-184 | the children's depth-first search: a result has the id asked for, and a first child with the id is found first |
| Comps.ByIDOf | gui/server/panel.go:167-184 | a container is itself for its own id, else the search of its children |
| Comps.FindInNone | gui/server/panel.go:167-184 | nothing is found only when no child and no container child's subtree has the id |
| Comps.IndexOf | gui/server/panel.go:217-224 | the first index whose child Equals the component, or -1 exactly when there is none |
| Comps.Equals | gui/server/panel.go:219 | Comp.Equals, as the containers use it: two components are the same exactly when their ids are (comp.go is not part of this model) |
| Comps.CellFmt.AddClass | gui/server/tabpanel.go:310 | Style().AddClass: the class is on the cell afterwards, and the other classes are unchanged |
| Comps.CellFmt.RemoveClass | gui/server/tabpanel.go:309 | Style().RemoveClass: the class is off the cell afterwards, and the other classes are unchanged |
| Panels.Panel.constructor | gui/server/panel.go:141-143 | no children and no cell formatters |
| Panels.Panel.CompAt | gui/server/panel.go:210-215 | nil exactly outside [0, CompsCount()), else the child at the index |
| Panels.Panel.CompIdx | gui/server/panel.go:217-224 | the first index whose child Equals c2, or -1 |
| Panels.Panel.CellFmt | gui/server/panel.go:226-241 | nil for a non-child. For a child it is the stored formatter, created empty on the first request, so repeated calls give the same object |
| Panels.Panel.Remove | gui/server/panel.go:145-165 | false and no change for a non-child. Otherwise exactly that index is cut out, the rest keep their order, and the child's formatter is dropped |
| Panels.Panel.MakeOrphan | gui/server/panel.go:245 | afterwards the component is no child and has no formatter; a non-child changes nothing |
| Panels.Panel.Add | gui/server/panel.go:243-247 | the component becomes the last child; the count grows by one when it was not already a child |
| Panels.Panel.Insert | gui/server/panel.go:249-264 | fails and changes nothing iff idx<0 or idx>CompsCount(). Otherwise the component sits at idx, earlier children are unchanged and later ones shift right. A component that was already a child is first taken out, and its formatter is dropped |
| Panels.Panel.Clear | gui/server/panel.go:186-196 | no children and no cell formatters |
| Panels.Panel.ByID | gui/server/panel.go:167-184 | the panel itself for its own id, before the depth-first search of the children |
| Panels.Panel.ByIDNone | gui/server/panel.go:167-184 | nothing is found only when neither the panel nor any child or subtree has the id |
| Panels.Panel.NoFmtForNonChild | gui/server/panel.go:226-241 | only children have formatters |
| Panels.RemovePreservesValid | gui/server/panel.go:156-159 | the splice keeps child ids distinct and formatters attached to children only |
| Panels.InsertPreservesValid | gui/server/panel.go:257-259 | the shift-and-place keeps child ids distinct and formatters attached to children only |
| Panels.AppendPreservesValid | gui/server/panel.go:243-247 | appending a new child keeps child ids distinct and formatters attached to children only |
| Panels.RemovedIdGone | gui/server/panel.go:156-159 | after the splice no child has the removed id |
| TabPanels.TabPanel.constructor | gui/server/tabpanel.go:140-148 | no tabs, no contents, selected = prevSelected = -1 |
| TabPanels.TabPanel.SetSelected | gui/server/tabpanel.go:301-322 | a no-op, with every formatter's classes unchanged, when idx ≥ CompsCount(). Otherwise prevSelected becomes the old selection and idx is selected: the old selected tab's cell has its tab class swapped to not selected, the new one's to selected, every other formatter keeps its classes (Reselect), and only the selected tab carries the selected style. The contents' formatters keep their classes |
| TabPanels.TabPanel.StyleTab | gui/server/tabpanel.go:306-320 | tab k's cell has its tab class swapped (Swapped): the other tab class out, the one for isSelected in, its other classes unchanged. Every other formatter of the bar and of the contents keeps its classes |
| TabPanels.TabPanel.Add | gui/server/tabpanel.go:267-285 | the tab and the content go last. The tab's new formatter holds the not-selected class, or for a first pair the selected class, which is then the only tab cell. The content's new formatter holds the content class. Every older formatter keeps its classes |
| TabPanels.TabPanel.AddPair | gui/server/tabpanel.go:268-271 | the tab and the content go last with new formatters holding the not-selected and the content class. Every older formatter keeps its classes, and the selection is unchanged |
| TabPanels.TabPanel.AddTab | gui/server/tabpanel.go:268-270 | the tab goes last on the bar with a new formatter holding only the not-selected class. The older formatters keep their classes, and the bar stays styled for the selection |
| TabPanels.AppendFmt | gui/server/tabpanel.go:268-270 | a component that is not yet a child goes last with a new, empty formatter, and the other formatters keep their classes |
| TabPanels.AppendStyled | gui/server/tabpanel.go:268-271 | a component that is not yet a child goes last with a new formatter holding only the given class, and the other formatters keep their classes |
| TabPanels.TabPanel.AddContent | gui/server/tabpanel.go:269-271 | the content goes last with a new formatter holding only the content class; the other contents' formatters keep their classes |
| TabPanels.TabPanel.ClickTab | gui/server/tabpanel.go:278-280 | the tab click selects the current index of its content, remembering the old selection. No formatter is added or dropped; the old and the new selected tab have their tab class swapped (Reselect), and every other formatter keeps its classes |
| TabPanels.TabPanel.Remove | gui/server/tabpanel.go:150-194 | a tab or a content takes its whole pair out, with their two formatters, so both lists stay equally long. prevSelected and selected follow the tabs that stay. The remaining formatters keep their classes, except that a removed selected tab passes the selection on to the next tab (ClassesAfterRemove). Anything else is not removed, and then nothing changes, classes included |
| TabPanels.TabPanel.RemoveContentAt | gui/server/tabpanel.go:165-191 | the pair at i goes with its two formatters. prevSelected follows AdjustPrev and selected follows AdjustSelected, restoring the adjusted prevSelected after re-selection. The remaining formatters keep their classes, except the next tab's when the removed tab was selected (ClassesAfterRemove) |
| TabPanels.TabPanel.RemovePair | gui/server/tabpanel.go:160-174 | the tab and the content at i go with their formatters and prevSelected is adjusted. The remaining formatters keep their classes, so a removed selected tab leaves none styled selected |
| TabPanels.TabPanel.PairIndex | gui/server/tabpanel.go:150-158 | the index of the pair c2 belongs to, found among the contents first and then among the tabs; negative exactly when c2 is in neither |
| TabPanels.TabPanel.RemoveTab | gui/server/tabpanel.go:160-164 | tab i and its formatter go, and the other formatters keep their classes and their tabs' styles |
| TabPanels.TabPanel.TabBarRemove | gui/server/tabpanel.go:30-46 | a tab of the bar removes its pair, with both formatters, through the tab panel, with the classes as for Remove; anything else is not removed, and then nothing changes, classes included |
| TabPanels.Swapped | gui/server/tabpanel.go:306-320 | a tab cell after restyling carries exactly its tab class for the state, and its other classes are unchanged |
| TabPanels.Reselect | gui/server/tabpanel.go:301-322 | the classes after a re-selection: the previous tab's cell swapped to not selected, the new one's to selected, every other entry unchanged |
| TabPanels.ClassesAfterRemove | gui/server/tabpanel.go:160-191 | the classes after taking pair i out: its tab's entry gone, the next tab's swapped to selected when the removed tab was selected, every other entry unchanged |
| TabPanels.Restyle | gui/server/tabpanel.go:306-320 | the RemoveClass/AddClass pair on a cell's style makes its classes Swapped |
| TabPanels.TabPanel.RestyleTabs | gui/server/tabpanel.go:305-321 | deselecting prev and selecting idx leaves the bar's classes as Reselect says and the contents' classes unchanged |
| TabPanels.TabPanel.SelectNext | gui/server/tabpanel.go:181-190 | SetSelected(i) with prevSelected restored: i is selected, the classes follow Reselect, and prevSelected is unchanged |
| TabPanels.TabPanel.ShiftPrev | gui/server/tabpanel.go:167-174 | prevSelected follows AdjustPrev and selected is unchanged |
| TabPanels.TabPanel.Clear | gui/server/tabpanel.go:211-216 | no tabs, no contents and no formatters, then SetSelected(-1) |
| TabPanels.TabPanel.ByID | gui/server/tabpanel.go:196-209 | the tab panel and its contents are searched first, then the tab bar and its tabs |
| TabPanels.TabPanel.ByIDMissing | gui/server/tabpanel.go:196-209 | nothing is found only when neither panel nor any tab or content has the id |
| TabPanels.AdjustPrev | gui/server/tabpanel.go:167-174 | prevSelected decrements when the removed index is below it and becomes -1 when it is the one removed |
| TabPanels.AdjustSelected | gui/server/tabpanel.go:176-191 | selected decrements when the removed index is below it, and stays on the index (the next tab) when it is the one removed |
| TabPanels.SelectionFollowsTab | gui/server/tabpanel.go:176-191 | the adjusted selection points at the same tab as before the removal |
| TabPanels.PrevFollowsTab | gui/server/tabpanel.go:167-174 | the adjusted prevSelected points at the same tab, or is -1 when that tab is the one removed |
| TabPanels.RemoveKeepsStyled | gui/server/tabpanel.go:160-164 | removing a tab keeps every other tab's style |
| TabPanels.AppendKeepsStyled | gui/server/tabpanel.go:268-270 | a new last tab styled not selected keeps the bar styled |
| Sessions.IdCharsPowerOfTwo | gui/server/session.go:106-115 | the alphabet has 64 letters, a power of two, so the init check passes |
| Sessions.IdChar | gui/server/session.go:128 | the letter for a byte is the alphabet letter at the byte modulo 64 |
| Sessions.MaskIsMod | gui/server/session.go:128 | masking with 63 is the remainder modulo 64 |
| Sessions.GenID | gui/server/session.go:121-131 | 22 letters, each the alphabet letter its random byte selects, so every one is in the alphabet |
| Sessions.Session.constructor | gui/server/session.go:92-104 | a private session has a 22-letter generated id and is new. The public one has id "" and is not new, and both start with a 30-minute timeout |
| Sessions.Session.Private | gui/server/session.go:141-143 | private iff the id is non-empty |
| Sessions.Session.New | gui/server/session.go:137-139 | whether the client does not know the session yet: true for a fresh private session, false for the public one and after ClearNew (stated by the constructor and ClearNew) |
| Sessions.Session.AddWin | gui/server/session.go:145-156 | an error and no change for an empty name or a name already taken; otherwise the window is stored under its name. No other field changes |
| Sessions.Session.RemoveWin | gui/server/session.go:158-165 | the window under the name is deleted exactly when it has the same id, and the answer says whether it was. No other field changes |
| Sessions.Session.WinByName | gui/server/session.go:181-183 | the window stored under the name, nil for an unknown name |
| Sessions.Session.Attr | gui/server/session.go:185-187 | the stored value, nil for an attribute never set or deleted |
| Sessions.Session.SetAttr | gui/server/session.go:189-195 | nil deletes the attribute, any other value is what Attr returns, and other attributes and fields are unchanged |
| Sessions.Session.ClearNew | gui/server/session.go:221-223 | afterwards New() is false, and no other field changes |
| Servers.AppPath | gui/server/server.go:258-262 | "/" for an empty app name, else "/" + name + "/" |
| Servers.ListenAddr | gui/server/server.go:244-246 | an empty address becomes "localhost:3434"; any other is kept |
| Servers.AppURL | gui/server/server.go:264-272 | the scheme, the address and the app path, with https exactly in secure mode |
| Servers.Server.constructor | gui/server/server.go:243-281 | the address defaults and the app path and URL are derived. Secure mode holds iff both certificate and key are given, and only then are they kept. The registries start empty |
| Servers.Server.AddSessCreatorName | gui/server/server.go:295-299 | a non-empty name is stored with its text; an empty name is ignored. No other field changes |
| Servers.Server.AddSHandler | gui/server/server.go:301-305 | one more session handler, and no other field changes |
| Servers.Server.RemoveSess2 | gui/server/server.go:358-372 | a private session is removed and every handler is told, in registration order; the public session changes nothing. No other field changes |
| Servers.RemovedNotices | gui/server/server.go:367-369 | one Removed callback per handler, in order |
| Servers.Server.SetHeaders | gui/server/server.go:414-420 | the stored headers become an independent copy of the argument, and no other field changes |
| Servers.Server.Headers | gui/server/server.go:422-429 | an independent copy of the stored headers |
| Servers.CopyHeaders | gui/server/server.go:414-429 | the copy loop gives every key with its values |
| Servers.StaticDirPath | gui/server/server.go:441-460 | the served path starts with the app path, ends in "/" and is never the static-content path |
| Servers.StaticDirErrors | gui/server/server.go:441-460 | the only refused paths are "", "/" and "_gui_static" with or without a leading or trailing "/" |
| Servers.StaticDirNeverSessCheck | gui/server/server.go:458 | the normalised path ends in "/", so the session-check comparison never matches |
| Servers.StaticSlash | gui/server/server.go:450-458 | adding the trailing "/" gives the static-content path iff the path is "_gui_static" or "_gui_static/" |
| Servers.StaticTrim | gui/server/server.go:442-447 | which paths trim to the empty path and to the static-content path |
| Servers.TrimSlash | gui/server/server.go:442-444 | one leading "/" is dropped, if there is one |
| Servers.AddSlash | gui/server/server.go:450-452 | a "/" is added unless the path ends in one |
| Servers.Server.AddRootHeadHTML | gui/server/server.go:488-490 | the text goes last, and no other field changes |
| Servers.Server.RemoveRootHeadHTML | gui/server/server.go:492-501 | only the first equal entry goes and the rest keep their order; an absent entry changes nothing. No other field changes |
| Servers.ServeRoute | gui/server/server.go:585-605 | NotFound exactly for a path that has an app name and no '/' at all (too few parts); any other path is decided by Dispatch on the parts after the leading empty part and the app name |
| Servers.Dispatch | gui/server/server.go:607-677 | never NotFound. A first part "_sess_ch" is the session check, and no part or an empty first part is the window list. Otherwise the first part names the window: a second part "e" is an event and "rc" a component render, and anything else renders the whole window |
| Servers.RemoveFirst | gui/server/server.go:492-501 | an absent entry changes nothing; otherwise one fewer entry and exactly one occurrence fewer of it |
| Servers.RemoveFirstAt | gui/server/server.go:492-501 | removing the first occurrence splices the list at its index |
| Servers.RemoveFirstAdded | gui/server/server.go:488-501 | removing a head HTML just added, which was not there before, restores the list |
| Servers.RouteAfterAppPath | gui/server/server.go:585-605 | after the app path, only the rest of the path decides the route |
| Servers.RouteRoundTrip | gui/server/server.go:585-677 | each route other than NotFound is reached by the path a client builds for it: session check, window list, event, component render or whole window |
| Servers.RouteSegments | gui/server/server.go:607-677 | the route's own segments join to its path tail and dispatch back to the route |
| Servers.RouteNoAppName | gui/server/server.go:598-602 | with an app name, a path without a second part is not found |
| Servers.ParseIntParam | gui/server/server.go:849-854 | the parsed number, or -1 when the text does not parse |
| Servers.ParseIntParamItoa | gui/server/server.go:849-854 | every number's text reads back as the number, and a missing parameter reads as -1 |
| Servers.EventResponseShape | gui/server/server.go:817-844 | the first character is the action code (1 reload, 2 dirty, 3 focus, 0 none). Without a reload a ';' occurs iff there are both dirty components and a focused one |
| Servers.EventResponse | gui/server/server.go:817-844 | the response text starts with its action code (1 reload, 2 dirty, 3 focus), and it is "0" exactly when there is no reload, no dirty component and no focus |
| Servers.ItoaNoSeparators | gui/server/server.go:826-829 | no number's text holds ';' or ',' |
| Servers.DirtyListNoSemicolon | gui/server/server.go:826-829 | the dirty list holds no ';' |
| Servers.WriteEventResponse | gui/server/server.go:817-844 | the sink takes the response text: "1,win" for a reload. Otherwise "2,id,…" for dirty components, then "3,id" for focus, with ';' only when both are there; "0" when neither |
| Servers.WriteActions | gui/server/server.go:823-840 | the dirty and focus actions, with ';' between them only when both are there |
| Servers.WriteDirty | gui/server/server.go:823-830 | "2" then a comma and the id of each dirty component |
| Servers.WriteDirtyID | gui/server/server.go:827-828 | a comma and the id |
| Servers.WriteFocus | gui/server/server.go:837 | "3," and the focused id |
| Servers.WriteSepFocus | gui/server/server.go:832-837 | ';' then the focus action |
| Servers.WriteSep | gui/server/server.go:833 | the ';' between two actions |
| Servers.WriteReload | gui/server/server.go:821 | "1," and the window name |
| Writers.Capped | gui/server/writer.go:105-159 | what of a text fits in the room: the text itself when it fits, else its prefix of that length |
| Writers.CappedConcat | gui/server/writer.go:126-155 | what fits of a + b is what fits of a, then what still fits of b |
| Writers.WritevsCapped | gui/server/writer.go:126-136 | Writevs of byte-like values takes what fits of their concatenation |
| Writers.InitInts | gui/server/writer.go:50-55 | the cached texts of 0..63 are strconv.Itoa's |
| Writers.Render | gui/server/writer.go:105-124 | an int renders as its decimal text and a bool as "true"/"false"; exactly the unsupported types render nothing |
| Writers.Sink.Write | gui/server/writer.go:111-119 | the underlying writer takes what fits, and a short write is an error |
| Writers.Writer.Writev | gui/server/writer.go:105-124 | the value's bytes, with the cached text for 0..63 equal to Itoa's; an unsupported type writes nothing and returns an error |
| Writers.Writer.Writevs | gui/server/writer.go:126-136 | the values are written in order, n is the sum written, and the run stops at the first error, writing none of the rest |
| Writers.Writer.Writes | gui/server/writer.go:138-143 | the string's bytes |
| Writers.Writer.Writess | gui/server/writer.go:145-155 | the strings are written in order, n is the sum written, and the run stops at the first error |
| Writers.Writer.Writees | gui/server/writer.go:157-159 | the HTML-escaped form of the string |
| Writers.Writer.WriteAttr | gui/server/writer.go:161-196 | five writes of ` name="value"`, unescaped, stopping at the first error; n is the total written |
| Writers.Writer.WriteNext | gui/server/writer.go:168-192 | one write of a run that has not failed extends the run by one piece |
| Writers.AttrText | gui/server/writer.go:161-196 | with room for it, WriteAttr writes exactly ` name="value"` without error; with less, what fits of it and an error |
| Writers.WritePieces | gui/server/writer.go:126-155 | a run never writes more than the room, nor asks for more writes than pieces |
| Writers.WritePiecesBytes | gui/server/writer.go:126-155 | byte slices only: the run writes the longest prefix of their concatenation that fits, and fails iff not all of it fits |
| Writers.WritePiecesStops | gui/server/writer.go:131-133 | the run hands over the slices in order up to and including the first that does not fit, and no further |
| Writers.WritePiecesFailed | gui/server/writer.go:131-133 | once the run has failed, later pieces change nothing |
| Writers.WritePiecesStep | gui/server/writer.go:127-134 | a run that has not failed goes on with the next piece and ends there when that one fails |
| Writers.WriteOne | gui/server/writer.go:105-124 | one write never takes more than the room |
| Writers.Strings | gui/server/writer.go:145-155 | one byte slice per string |
| Writers.Renders | gui/server/writer.go:126-136 | one rendered piece per value |
| Writers.AttrPieces | gui/server/writer.go:168-192 | the five writes of WriteAttr: " ", the name, `="`, the value, `"` |
| Expanders.Expander.constructor | gui/server/expander.go:59-67 | collapsed, with no header or content. The header format holds exactly the collapsed pair, and the expander has its own class |
| Expanders.Expander.SetExpanded | gui/server/expander.go:161-180 | nothing changes for the current state; otherwise the header's class pairs are swapped and the header shows the new state |
| Expanders.Expander.ClickHeader | gui/server/expander.go:136-141 | the click flips the state, marks the expander dirty and forks a state-change event exactly when a handler is registered; its classes are unchanged |
| Expanders.Expander.SetHeader | gui/server/expander.go:130-133 | makeOrphan first: a component that is the content stops being the content. Then it becomes the header |
| Expanders.Expander.SetContent | gui/server/expander.go:149-155 | makeOrphan first: a component that is the header (and not also the content) stops being the header. Then it becomes the content, and its cell gets the content class |
| Expanders.Expander.Remove | gui/server/expander.go:69-83 | the content goes if it is c2, else the header if it is c2, answering true; otherwise false and no change. The classes are unchanged |
| Expanders.Expander.Clear | gui/server/expander.go:115-124 | header and content are both nil; the classes are unchanged |
| Expanders.Expander.ByID | gui/server/expander.go:85-113 | a result has the id asked for: the expander, then the header and inside it, then the content and inside it |
| Expanders.Expander.ByIDAsContainer | gui/server/expander.go:85-113 | ByID searches like any container whose children are the header and the content |
| Expanders.Expander.RenderedCells | gui/server/expander.go:190-209 | the header when set, and the content only when expanded and set |
| Expanders.StyledPairsExclusive | gui/server/expander.go:161-180 | the collapsed and expanded pairs are never present together, and the expanded pair is there iff expanded |
| Expanders.SwapStyles | gui/server/expander.go:166-179 | swapping the pairs styles the header for the new state, whatever classes it had |
| Links.Link.constructor | gui/server/link.go:49-54 | no child, the "_blank" target and the link class |
| Links.Link.Target | gui/server/link.go:94-96 | the target attribute, "" when there is none |
| Links.Link.SetTarget | gui/server/link.go:98-104 | the empty target deletes the attribute and any other is stored; Target() returns it and other attributes are unchanged |
| Links.Link.SetComp | gui/server/link.go:110-112 | the child is replaced, and a nil component leaves the link without a child; text, url, attributes and classes are unchanged |
| Links.Link.Remove | gui/server/link.go:56-65 | false with no change when there is no child or it is not c2; otherwise the child is cleared and the answer is true. Text and url are unchanged |
| Links.Link.Clear | gui/server/link.go:87-92 | no child; text and url are unchanged |
| Links.Link.Children | gui/server/link.go:87-112 | at most one child, none exactly when unset |
| Links.Link.ByID | gui/server/link.go:67-85 | a result has the id asked for: the link, then the child, then inside a child container; nothing without a child for another id |
| Links.Link.ByIDAsContainer | gui/server/link.go:67-85 | ByID searches like any container whose only child is the link's child |

## Left out

- Goroutines, channels and timers of the pipeline (`Start`, `Close`, `storeResult`, `storeCache`, `prepareStorage`, the `time.After` wait): each stage is one step over the values its channels deliver, and the wait becomes the reported `waitUntil`.
- `request.GetUsersLookup`, `finder.CheckUserCriteria` and the storage functions the pipeline calls are not part of this model. `CheckOldUser` is taken to be `CheckIDExist`, and the match verdict is a parameter. `AddInvestUser`/`RemoveInvestUser` are a set of ids.
- The lookup call and forwarding after a batch (pipeline/manager.go:66-74) are left out. The `len(inIdes) > 0` test there always holds for a positive batch size.
- Request.CursorsDescend: the Go loops run for as long as the API keeps naming cursors. The model assumes the oracle's cursors descend in some rank, so that a listing ends.
- Request.UserFollowersFollowing: the configuration it reads (`Following`, `Followers`) is passed as two flags, and the API client as the oracle.
- Logging, `fmt.Printf` of matches and the mutexes of the cache, the sessions and the server are left out; everything is sequential.
- Config.StringToDate: `time.Parse` with the Ruby layout is an abstract parameter; a time is Unix seconds and nanoseconds only.
- Text.ToLower: ASCII letters only, not Unicode case mapping; strings are one byte per char.
- Comps.Equals: the component base (`compImpl`, comp.go) is not part of this model. A component is its id, whether it is a container and its children, and two components are equal when their ids are.
- Parent pointers are also not modelled. `makeOrphan` is modelled only for a component that is already a child of the same panel or expander, which is taken out first. A component whose parent is another container is not taken out of it, and `setParent` is not followed across containers.
- Comps.CellFmt has a ghost owner and key, the panel that created it and the child id it is stored under. They are bookkeeping of the model that shows different children never share a formatter; the Go formatter has no such fields.
- Event handlers registered by tab panels and expanders are modelled as the methods `ClickTab` and `ClickHeader`, not as stored closures.
- The component's initial attributes and classes (compImpl) are constructor parameters of `Link`.
- TabPanels.TabPanel.Remove: removing the selected last pair makes `SetSelected` deselect a tab that no longer exists. `CompAt` returns nil and `CellFmt` dereferences it, a panic, so that case is a precondition.
- TabPanels.TabPanel.TabBarRemove: the same panic case is a precondition.
- TabPanels.TabPanel.Clear: with a tab selected, `SetSelected(-1)` deselects a tab that no longer exists, the same panic. Clear requires that nothing is selected.
- TabPanels.TabPanel.Add: the tab and the content must not already be in the tab panel. Moving a component from another container orphans it there, and other containers are not followed.
- Panels.Panel.Insert: re-inserting a child at the old `CompsCount()` slices past the end of the shortened list, a panic, so that case is a precondition.
- Expanders.Expander.Remove: the Go code calls `Equals` on the content and then on the header without a nil check, so a nil content or (when the content is not c2) a nil header panics; both are preconditions.
- Expanders.Expander.SetHeader: makeOrphan goes through Remove, which compares the content first, so re-setting the header of an expander without content panics; that case is a precondition.
- Expanders.Expander.SetContent: for the same reason, setting the current header as the content of an expander without content is a precondition.
- Rendering of panels, tab panels, expanders and links, tab bar placement and layouts are left out. Only the expander's choice of cells is modelled (`RenderedCells`).
- Sessions.Session.constructor: the clock and the secure random source are parameters, and a failed random read (only logged) is not modelled. `SortedWins`, `access`, `Created`/`Accessed`/`SetTimeout` are plain field accesses not modelled beyond the fields.
- serveHTTP's session cookie lookup, the window lookup across sessions, session creation, the not-found page, `addHeaders` and the session-check timing are left out. `Servers.ServeRoute` stops at the decision, and the second path part is not compared with the app name, just as the code does not.
- handleEvent's event parsing and dispatch are left out. The dirty components are given in the order the map iteration would produce, and `SetFocusedCompID` is not modelled.
- `sessCleaner`, `addSessCookie`, `AddStaticDir`'s file server registration, `Start` and the HTTP mux are left out (HTTP, timers).
- Servers.Server.newServerImpl `url.Parse` panic is left out: the URL is kept as its text.
- Servers.Server.RemoveRootHeadHTML: the `old[len(old)-1] = ""` store only clears the slot past the new end of the shared backing array, which no later read of the list sees, so it is not modelled.
- Servers.Server.SetHeaders: the deep copy of each value slice is automatic, because sequences are values.
- Writers: `WriteString` and `Write` are taken to behave alike on the wrapped writer, and a `fmt.Stringer` is given as the text of its `String()`.
