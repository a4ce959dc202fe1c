# wecert: verified models of the tools around the ACME daemon

This project models the parts of the repository with real state, loops and interleavings, and proves what each
of them is for. `dafny verify dfyconfig.toml` checks everything.

| source | modules | what is proved |
|---|---|---|
| `scripts/build-diagram-langs.py` | `HtmlTree`, `HtmlRoundTrip`, `HtmlNormalForm`, `HtmlBuilder`, `HtmlTranslate`, `HtmlPlaces`, `HtmlLookups`, `HtmlTranslator`, `HtmlPage` | the push-down tree builder over heap nodes refines a value model; printing what was built gives the input back exactly when the input is well nested; build, flatten, build is a fixpoint; translation in place is a set of licensed, disjoint substitutions, each at its place in the page, that keeps every surviving element; no text is left over unseen |
| `webconsole/console.js` | `ConsoleProtocol`, `Console`, `RenewDraft` | over every interleaving of loads, sign-ins, sign-outs and the first connect: no stale overwrite, a truthful spinner, nothing shown after sign-out, and exactly when an inventory can be emptied, all kept by a class over the page's state; the exact diff a renewal files |
| `cmd/clbverify/main.go` | `ClbVerify` | the verdict is sound: one observed set carries it; the asserted set and the verdict are exact over the listener's own fields; the wait is bounded |
| `cmd/preflight/main.go` | `Preflight` | a listing is complete or an error, a search never turns "gave up" into "not there" |
| `scripts/check-alerts.py` | `AlertRules`, `AlertRoundTrip`, `AlertSections`, `AlertFile`, `AlertGate`, `AlertSearch`, `AlertMisled` | no rule is skipped silently, on any text; the line scanner reads exactly what the sections of the file give; the text written for any groups and rules is read back as exactly those, and opens the gate; what the gate vouches for, alert by alert |
| `scripts/check-coverage.py` | `Coverage` | the gate decides by the exact inequality; the reported gap is the least one exactly when it is resolvable at six decimals |
| `cmd/wecert/binding_refresh.go` | `BindingRefresh` | the timer and its stop protocol, over every interleaving, and exactly when a refresh can still begin |

`Text` holds the string helpers they share. Where the source updates state in place (`Node`, `Builder`, the
translator, the console's `state`), the model is a class whose methods are proved against functions on values;
the properties are lemmas about those functions.

## Where the code and its intent part

* `roundtrip_check` promises that printing a parsed page reproduces it. `HtmlRoundTrip.LosslessIff` gives the exact
  condition: it does so for a tokenised document if and only if the document is well nested, with every element
  closed as it was spelled. A missing or differently spelled end tag, a reference without `;` and a processing
  instruction are all outside; `MissingEndTag` is the failing family for the first.
* The console's version counter protects every refresh but not the page's own first connect: `autoConnect`
  (`webconsole/console.js:1366-1380`) ends in an unversioned `setInventory([], [], false)`.
  `ConsoleProtocol.FirstConnectCanEmpty` is a run in which it empties an inventory a sign-in has just loaded.
  `CanEmptyExactly` says when that can still happen without a sign-out: if and only if the first connect's session
  has not been answered, or its load is the newest one and was refused its requests or waits for its
  inventory or its accounts.
* `check-coverage.py` rounds the demand to six decimals before rounding up. `Coverage.NothingMissing` is a floor and a
  profile for which the gate fails and reports that 0 more statements would clear it; `NeededIsGap` gives the exact
  condition and `FourDecimals` shows that a floor with at most four decimals always meets it.
* Cancelling the binding refresh does not by itself keep a refresh from beginning: a `select` with both channels ready
  may take the tick (`BindingRefresh.RefreshAfterCancel`, for every interval). `BeginsExactly` says when a refresh can
  still begin: if and only if the loop has not returned and is not merely waiting, cancelled, with no tick there or
  due. A stop that returned through `done` is a barrier (`DrainedMeansDone`).
* The cross-check of `check-alerts.py` is meant to show that no alert is skipped; it compares two counts
  (`AlertRules.GateExactly`). `AlertMisled.CountIsMisled` is a family of files on which they agree on different alerts: a
  key with no value inside a block scalar. `AlertSearch.GateOnAnyFile` gives the exact condition, for every file: when
  the gate opens, the keys the pattern finds are the rules the scanner begins if and only if the search passes over no
  rule begun, by taking its first word for the value of a key above or for want of any value.
* `renewDirty` compares sorted lists, so a declaration that repeats a name counts as changed even when nothing is
  added or removed (`RenewDraft.DirtyExactly`; `RepeatCountsAsChange` is the failing input).

## Model

| member | source | states |
|---|---|---|
| HtmlTree.StepSpine | scripts/build-diagram-langs.py:138-180 | on every event the stack stays a root-to-last-child spine of the tree, so the root is never popped |
| HtmlTree.RunConcat | scripts/build-diagram-langs.py:132-187 | building is incremental: feeding two streams one after the other is feeding their concatenation |
| HtmlRoundTrip.RunPrints | scripts/build-diagram-langs.py:361-372 | the builder's printing invariant: from any state, the finished tree prints as the tree so far without the closing tags of the elements still open, followed by what a streaming printer that knows only the open tags emits for the rest |
| HtmlRoundTrip.BuildPrints | scripts/build-diagram-langs.py:361-372 | for every stream, printing the built tree equals the one-pass streaming printer |
| HtmlRoundTrip.Lossless | scripts/build-diagram-langs.py:377-394 | for every well-nested stream, printing the built tree gives back the raw text |
| HtmlRoundTrip.LosslessIff | scripts/build-diagram-langs.py:377-394 | for every tokenised document, with text that holds a lone `<` and the raw text of scripts and styles included, the round trip holds if and only if the document is well nested |
| HtmlRoundTrip.MissingEndTag | scripts/build-diagram-langs.py:377-394 | an element that takes children and is never closed prints with an end tag the input does not have |
| HtmlRoundTrip.LessThan | scripts/build-diagram-langs.py:160-161 | text around a lone `<` is a tokenised document and comes back |
| HtmlRoundTrip.NameAsWritten | scripts/build-diagram-langs.py:112-119 | an element keeps the name as it is spelled in its start tag, not as the tokenizer reports it |
| HtmlRoundTrip.ElementComesBack | scripts/build-diagram-langs.py:361-372 | an element is printed with an end tag that spells its name as its start tag does, whatever the end tag of the input |
| HtmlRoundTrip.CutNameComesBack | scripts/build-diagram-langs.py:118-119 | a document outside the tokenised ones, its tag name cut at a space the tokenizer keeps, that comes back without being well nested |
| HtmlNormalForm.StepBuilt | scripts/build-diagram-langs.py:132-180 | every handler keeps the builder's invariant: root at the bottom, spine of open elements, nodes of the builder's shapes |
| HtmlNormalForm.RunBuilt | scripts/build-diagram-langs.py:132-187 | that invariant over whole streams, well nested or not |
| HtmlNormalForm.RefillAll | scripts/build-diagram-langs.py:138-187 | replaying the flattened form of any builder-shaped forest at any stack depth adds exactly that forest there and leaves the stack as it was |
| HtmlNormalForm.Fixpoint | scripts/build-diagram-langs.py:108-187 | for every stream, building, flattening and building again gives the same tree |
| HtmlBuilder.Node.Serialize | scripts/build-diagram-langs.py:361-372 | the printer over heap nodes prints the value of the tree they form |
| HtmlBuilder.Builder.Add | scripts/build-diagram-langs.py:138-141 | a new node becomes the last child of the innermost open element and nothing else changes |
| HtmlBuilder.Builder.HandleStartTag | scripts/build-diagram-langs.py:143-147 | refines the start-tag step: added, and pushed unless void |
| HtmlBuilder.Builder.HandleStartEndTag | scripts/build-diagram-langs.py:149-152 | refines the self-closing step: added, never pushed |
| HtmlBuilder.Builder.HandleEndTag | scripts/build-diagram-langs.py:154-158 | refines the end-tag step: the innermost open element of that name and all opened inside it are closed, the root never |
| HtmlBuilder.Builder.Innermost | scripts/build-diagram-langs.py:155-157 | the search down the stack finds the innermost open element of that name, or the root |
| HtmlBuilder.Builder.HandleLeaf | scripts/build-diagram-langs.py:160-180 | text, references, comments, declarations and processing instructions refine the leaf step |
| HtmlBuilder.Parse | scripts/build-diagram-langs.py:183-187 | the heap tree of a whole stream has exactly the value the model builds |
| HtmlTranslate.MissingIsComplete | scripts/build-diagram-langs.py:206-213 | a key is on the missing record exactly when it was before, or it holds a Chinese character, is not in the table and some text with that key was looked up |
| HtmlTranslate.FirstPlaceStays | scripts/build-diagram-langs.py:206-213 | a key stays recorded with the place at which it was first missed |
| HtmlTranslate.LookupIsEntry | scripts/build-diagram-langs.py:206-211 | a lookup answers with the table's value for the key of the text, and only when the key holds a Chinese character and is in the table |
| HtmlTranslate.InnerTextIsLeaves | scripts/build-diagram-langs.py:192-199 | the inner text of an element is the texts below it, one after the other, comments and declarations left out |
| HtmlTranslate.RoleExactly | scripts/build-diagram-langs.py:251-274 | exactly which nodes are left alone, taken as diagram text, as a foreignObject block, as a piece of copy or as a container, by tag, class and children |
| HtmlLookups.EveryTextSeen | scripts/build-diagram-langs.py:230-340 | every text of a page is part of something that is looked up about the place it stands at, unless it is in a style or script, only layout containers hold it, or it is in a `br` of a foreignObject block |
| HtmlLookups.TextAccounted | scripts/build-diagram-langs.py:230-340 | every text of the translated tree is the table's value for the key of some lookup, or a text of the page none of the lookups about which has its entry in the table |
| HtmlLookups.NothingLeftOver | scripts/build-diagram-langs.py:461-471 | when no lookup missed, every text of the translated tree is the table's value for the key of some lookup, or a text translation passes over or looked up under keys without Chinese only |
| HtmlLookups.EntriesShown | scripts/build-diagram-langs.py:230-340 | whatever is looked up for a page and has its entry in the table, the translated page contains that entry's value |
| HtmlPlaces.TrIsLocal | scripts/build-diagram-langs.py:230-340 | the translated page is the original with disjoint pieces substituted, each by the table's value for the key of the text it replaces; each piece has its place in the page, outside styles and scripts, the text before it being what the page prints before that place: the whole content of a `<text>`, of a piece of copy that holds no block and, in a div, only inline elements, of a span of a foreignObject block, or a whole run between structural children of such a block |
| HtmlTranslate.NoHitNoChange | scripts/build-diagram-langs.py:230-340 | when no lookup hits, translation is the identity |
| HtmlTranslate.ElementsSurvive | scripts/build-diagram-langs.py:230-340 | the elements of the translated tree, with opening text and name as written, are a subsequence of the original ones |
| HtmlTranslate.FoKeepsStructure | scripts/build-diagram-langs.py:293-340 | a foreignObject block keeps its span and br children in order, and each run between them appears once, whole or as its one replacement |
| HtmlTranslator.Translator.Find | scripts/build-diagram-langs.py:206-213 | the table's value for the key exactly when the key is listed, and the key recorded exactly when it holds Chinese, is not in the table and was not recorded before |
| HtmlTranslator.Translator.ReplaceChildren | scripts/build-diagram-langs.py:286-290 | the element keeps its own fields and has one verbatim child |
| HtmlTranslator.Translator.Translate | scripts/build-diagram-langs.py:230-279 | the in-place translation gives the node the value of the model's translation and records exactly the misses of its lookups, in order |
| HtmlTranslator.Translator.TranslateUnit | scripts/build-diagram-langs.py:272-279 | a unit is looked up whole first and descended into only on a miss |
| HtmlTranslator.Translator.Flush | scripts/build-diagram-langs.py:307-316 | a run leaves as itself or as its one replacement |
| HtmlTranslator.Translator.TranslateFo | scripts/build-diagram-langs.py:296-340 | the in-place rewriting of a block gives its children the values of the model's |
| HtmlTranslator.NodeRole | scripts/build-diagram-langs.py:216-270 | the decision read off the heap node is the one the model takes on its value |
| HtmlPage.RoundTripCheck | scripts/build-diagram-langs.py:377-394 | the check passes exactly when the round trip holds; on a tokenised document exactly when it is well nested |
| HtmlPage.BuildPage | scripts/build-diagram-langs.py:423-429 | a page is built only from a document that round trips, it is the input with licensed substitutions, each at its place in the page, and an empty missing record means that no lookup missed and that every text of the translated tree is an answer of the table or a text that needed none; and every entry of the table that is looked up for the page stands in it, if the empty text has the empty key |
| ConsoleProtocol.StepInv | webconsole/console.js:499-530 | every step of the page keeps the protocol's invariant |
| ConsoleProtocol.NoStaleOverwrite | webconsole/console.js:490-530 | in every reachable state the versions of the payloads applied strictly increase, and the inventory shown is the newest of them or was emptied since |
| ConsoleProtocol.OlderLoadsAreMute | webconsole/console.js:505-528 | over any run of steps of loads that are not the newest, sent or not, in any order, nothing shown changes |
| ConsoleProtocol.NewestApplies | webconsole/console.js:499-520 | a settling request puts a payload on the page exactly when it is one of the newest load, no other request of that load is out, and it is neither a refused inventory nor refused accounts |
| ConsoleProtocol.LoadSends | webconsole/console.js:499-512 | a load sends its four requests exactly when there is a session that may read, under the next version, and only turns the spinner |
| ConsoleProtocol.LoadGoesOn | webconsole/console.js:505-512 | while another request of a load is out, no answer but a refused inventory or refused accounts ends it: nothing shown changes and the answer is kept |
| ConsoleProtocol.FatalEnds | webconsole/console.js:521-529 | a refused inventory or refused accounts ends a load at once with that message, applies nothing and, on the first connect, empties the inventory |
| ConsoleProtocol.LastAnswerShows | webconsole/console.js:513-520 | the last answer of the newest load puts its inventory and accounts on the page, with the message of a refused bindings or deployment request in its place, and leaves the session as it was |
| ConsoleProtocol.SpinnerTellsTruth | webconsole/console.js:499-530 | `syncing` is true exactly when the newest load is in flight, and then something that can end it is still to come |
| ConsoleProtocol.StaysEmptyAfterSignOut | webconsole/console.js:1141-1159 | after a sign-out the inventory is empty and stays empty until a session that may read is set |
| ConsoleProtocol.EarlierLoadsAreMute | webconsole/console.js:1146-1153 | no load started before a sign-out changes anything after it, whether its requests were sent or not, and its open requests have been aborted |
| ConsoleProtocol.SignOutClears | webconsole/console.js:1146-1153 | a sign-out leaves the empty view, a new version and every open request aborted |
| ConsoleProtocol.SignInSets | webconsole/console.js:1127-1133 | a sign-in sets the session as it was granted, and starts a load exactly if reading is granted |
| ConsoleProtocol.BootSessionSets | webconsole/console.js:1372-1377 | the first connect sets the session as it was granted, and loads if reading is granted, otherwise shows nothing |
| ConsoleProtocol.OnlySignOutEmpties | webconsole/console.js:490-530 | once the first connect threatens nothing, only a sign-out empties the inventory |
| ConsoleProtocol.CanEmptyExactly | webconsole/console.js:1366-1380 | an inventory shown can be emptied without a sign-out if and only if the first connect is unanswered, or its load is the newest one and was refused its requests or waits for its inventory or its accounts |
| ConsoleProtocol.EmptiesExactly | webconsole/console.js:1366-1380 | exactly which steps empty a shown inventory |
| ConsoleProtocol.FirstConnectCanEmpty | webconsole/console.js:1366-1380 | a run in which the first connect empties an inventory loaded after it began |
| ConsoleProtocol.ReachableStep | webconsole/console.js:490-530 | every step leads from a reachable page to a reachable page |
| Console.Console.constructor | webconsole/console.js:1366-1372 | the console is on a reachable page, the one on which its first connect asks for the session |
| Console.Console.ValidIsTruthful | webconsole/console.js:490-530 | on a valid console the applied versions strictly increase, the newest payload is shown unless emptied since, and `syncing` holds exactly while the newest load is in flight |
| Console.Console.LoadLive | webconsole/console.js:499-512 | the part before the wait is the protocol's; the first connect makes one load |
| Console.Console.Loaded | webconsole/console.js:513-529 | the part after a successful wait is the protocol's, on a load with all its answers |
| Console.Console.LoadFailed | webconsole/console.js:521-529 | the part after a failed wait is the protocol's, on a load whose inventory or accounts were refused or whose requests were not sent |
| Console.Console.Answered | webconsole/console.js:505-528 | one request settling is the protocol's step and keeps the console valid: applied versions strictly increasing, `syncing` exactly while the newest load is in flight |
| Console.Console.Refresh | webconsole/console.js:499-512 | a refresh is the protocol's step, keeps the console valid and turns the spinner |
| Console.Console.Refused | webconsole/console.js:232-235 | a load the session refuses its requests fails, by the protocol's step, and the console stays valid |
| Console.Console.SignIn | webconsole/console.js:1127-1133 | the sign-in continuation is the protocol's step and keeps the console valid |
| Console.Console.SignOut | webconsole/console.js:1146-1153 | the sign-out continuation is the protocol's step, keeps the console valid, aborts everything still pending and leaves nothing shown and nothing readable |
| Console.Console.BootSession | webconsole/console.js:1372-1377 | the first connect's session answer is the protocol's step and keeps the console valid |
| Console.Console.BootFail | webconsole/console.js:1374-1377 | the first connect's failure is the protocol's step and keeps the console valid |
| RenewDraft.DirtyIsBagInequality | webconsole/console.js:673-679 | the sort-and-compare test says changed exactly when the two lists differ as multisets |
| RenewDraft.DirtyExactly | webconsole/console.js:673-679 | for a draft without duplicates: changed exactly when a name is added, a name is removed, or the declaration repeats a name |
| RenewDraft.RepeatCountsAsChange | webconsole/console.js:673-679 | a declaration that repeats a name counts as changed with nothing added or removed |
| RenewDraft.DiffAddsUp | webconsole/console.js:844-846 | the draft is the declaration without the removed and with the added names, and so is its size |
| RenewDraft.FiledDiff | webconsole/console.js:843-846 | what is reported for a changed draft is exactly the difference and not empty |
| RenewDraft.NameByName | webconsole/console.js:845-846 | the names reported as added or removed stand in the order of the list they come from, each as often as there |
| RenewDraft.Validate | webconsole/console.js:794-810 | no problem exactly when the draft is non-empty, within the cap, well shaped and without duplicates; otherwise the first rule broken, by its first culprit |
| RenewDraft.FromBoxes | webconsole/console.js:698-700 | the draft holds exactly the non-empty normalised values |
| RenewDraft.BoxByBox | webconsole/console.js:698-700 | each box is read by itself, in its place and however often it repeats another |
| RenewDraft.ApplyRenew | webconsole/console.js:834-846 | refused exactly when the draft breaks a rule, with the first one broken; unchanged exactly when acceptable and equal to the declaration as a multiset; otherwise filed with exactly the differences |
| ClbVerify.BoundCertIDs | cmd/clbverify/main.go:469-483 | the IDs of one binding, in order: x is among them exactly when it is not empty and is the primary or an extension |
| ClbVerify.BindingIDsAre | cmd/clbverify/main.go:466-483 | an ID is among those of a binding exactly when it is not empty and the binding names it as primary or as an extension; the primary comes first |
| ClbVerify.RuleCertificates | cmd/clbverify/main.go:390-406 | one entry per forwarding rule, in order |
| ClbVerify.AssertedCertificates | cmd/clbverify/main.go:419-451 | duplicate-free, no empty ID; x is among them exactly when the listener's own binding (without a domain) or that of a rule that counts names it as primary or extension; an error exactly when a domain is given that no rule has |
| ClbVerify.AssertedExactly | cmd/clbverify/main.go:408-451 | the asserted set over the listener's own fields: x is asserted exactly when the listener's binding, or that of a present rule the domain selects, names it as primary or extension |
| ClbVerify.ScopedIsSubset | cmd/clbverify/main.go:408-451 | the set asserted for one domain is part of the set asserted for the listener |
| ClbVerify.FetchBoundCertIDs | cmd/clbverify/main.go:511-536 | a re-query succeeds exactly when the listener is there and binds something for the domain, and it returns exactly the IDs bound, as primary or extension |
| ClbVerify.PollFacts | cmd/clbverify/main.go:315-374 | a wait makes at least one query and at most one per started interval and one more, returns the latest good set and the message of the last query if it failed |
| ClbVerify.StopsAtFirstReason | cmd/clbverify/main.go:338-373 | a wait stops at the first query that finds the expected ID, ends past the deadline or finds the context done, and never before |
| ClbVerify.PollUntilBound | cmd/clbverify/main.go:329-374 | the loop computes that, and no sleep is longer than the interval or goes past the deadline |
| ClbVerify.AssertBindings | cmd/clbverify/main.go:303-313 | passes exactly when the set has the wanted ID, if given, and lacks the unwanted one, if given; the unwanted one is reported first |
| ClbVerify.EvaluateListener | cmd/clbverify/main.go:204-296 | the verdict is exactly the pass condition, whatever `-raw` says, as long as the dump can be encoded; no rule for the domain and nothing bound are told apart, over the listener's own fields |
| ClbVerify.PassExactly | cmd/clbverify/main.go:236-313 | the verdict over the listener's own fields: it passes exactly when a rule has the domain, something is bound, the wanted ID is bound and the unwanted one is not, as primary or extension; when it had to wait these two are held against the last answer |
| ClbVerify.PassAfterWait | cmd/clbverify/main.go:254-313 | when each query reports what the listener it finds binds, a pass after a wait means that the last one found binds the wanted ID and does not bind the unwanted one |
| ClbVerify.PassIsObserved | cmd/clbverify/main.go:250-313 | a pass rests on one observed set: the first one, or after a wait the one the last query returned |
| ClbVerify.AllFailedNeverPasses | cmd/clbverify/main.go:254-292 | a wait in which every query fails never passes |
| ClbVerify.WholeVouchesForParts | cmd/clbverify/main.go:408-451 | an unscoped absence implies it for every domain, and a scoped presence implies the unscoped one |
| Preflight.ListAllPages | cmd/preflight/main.go:530-554 | the loop computes the walk that always asks from the number collected on, in at most `maxPages` fetches, all of them spent when it gives up |
| Preflight.ListIsJustified | cmd/preflight/main.go:530-554 | against any server the walk ends at the first answer that ends the list or fails, returns everything collected only in the first case, and at the cap reports an error |
| Preflight.CompleteExactly | cmd/preflight/main.go:522-554 | on an honest server: the whole list in order exactly when it is shorter than the pages allow, or fills them and the last page says so; otherwise an error, never a part |
| Preflight.SelectDoomed | cmd/preflight/main.go:587-608 | nothing is selected unless the whole listing was read, and then exactly the certificates whose alias begins with `wecert/` |
| Preflight.WithPrefix | cmd/preflight/main.go:604-608 | the loop selects in order |
| Preflight.Doomed | cmd/preflight/main.go:604-608 | selected exactly when in the listing with an alias that has the prefix |
| Preflight.PruneIsExact | cmd/preflight/main.go:581-608 | for every account on an honest server what is selected is that of the whole account, and below 100,000 certificates it is always found |
| Preflight.FindDomain | cmd/preflight/main.go:301-356 | the name given is asked for and compared with its final dot taken off, in at most 100 calls; on an honest server within the cap an item with that name is found exactly when there is one, and "not there" is the answer exactly when there is none |
| Preflight.TrimmedOnce | cmd/preflight/main.go:301-305 | a name written as `d.` is searched as `d`, a name that does not end in a dot as it is |
| Preflight.FindIsJustified | cmd/preflight/main.go:301-356 | against any server the search goes on to the first deciding answer and what it saw is exactly what the answers brought; an item returned is the first match in it; "not there" means no match in it and an answer that there is no more; the cap is an error |
| Preflight.FindIsHonest | cmd/preflight/main.go:281-356 | against a server that returns non-empty parts: "not there" means the whole list was seen, and giving up happens only on a list too long for the cap |
| Preflight.DecidedWithinTheCap | cmd/preflight/main.go:281-300 | a list that leaves a page to spare is always decided, rightly both ways |
| AlertRules.ReadRules | scripts/check-alerts.py:57-130 | the loop computes the line scanner's state machine, comments and blank lines dropped; every rule it returns has an expression that is not empty and stripped |
| AlertRules.SkippedExactly | scripts/check-alerts.py:86-87 | a line is passed over exactly when it is blank or its first visible character is `#` |
| AlertRules.FoldedExactly | scripts/check-alerts.py:51-51 | a block scalar is opened by exactly the six markers |
| AlertRules.EveryRuleAccountedFor | scripts/check-alerts.py:60-65 | for all lines: every rule begun ends exactly once, in order, among the rules or the "has no expr" problems, and the other problems are exactly the lines the scanner does not understand, in order |
| AlertRules.CleanExactly | scripts/check-alerts.py:85-130 | no problem exactly when every rule begun comes back, in order, and no line is beyond the scanner |
| AlertRules.GateExactly | scripts/check-alerts.py:177-193 | on any text, with the cross-check of the pattern search over it, the gate opens exactly when the scanner began as many alerts as the pattern finds, and at least one, all those begun came back and nothing was beyond the scanner; every rule read has an expression that is not blank |
| AlertSections.ReadsSections | scripts/check-alerts.py:57-130 | for any file the rules, with their expressions and texts, the problems in order and the alerts begun are those of a reading by sections, a section being an alert and the lines up to the next alert or group |
| AlertSections.NoExprExactly | scripts/check-alerts.py:77-83 | for any file an alert is reported as having no expr exactly when the last `expr:` key of its section, or the block scalar below that key, gives it none or a blank one, and is returned as a rule otherwise, in order |
| AlertSections.GateBySections | scripts/check-alerts.py:177-193 | the gate opens exactly when the pattern is found as often as the file has sections, at least once, every section gives its alert an expression and nothing else is reported |
| AlertRoundTrip.ClassifyExactly | scripts/check-alerts.py:98-125 | the kinds of line are told apart by how they begin and in no other way |
| AlertRoundTrip.AlertSpelled | scripts/check-alerts.py:101-103 | a line spelled `- alert:` and a title is read as that alert |
| AlertRoundTrip.ExprSpelled | scripts/check-alerts.py:112-113 | a line spelled `expr:` and a value is read as that expression |
| AlertRoundTrip.RuleRun | scripts/check-alerts.py:85-127 | reading one printed rule adds exactly that rule, from any state that holds |
| AlertRoundTrip.RoundTrip | scripts/check-alerts.py:57-130 | any text whose lines, comments and blank lines aside, are laid out as groups and rules comes back as exactly those rules in order (block lines joined by single spaces), with no problem |
| AlertFile.RowsRead | scripts/check-alerts.py:85-89 | lines written with their indentation are read with that indentation and text |
| AlertFile.ReadsBack | scripts/check-alerts.py:57-130 | for any groups and rules as values, block scalars with lines at different depths among them, a file that is their text with comments and blank lines interspersed is read back as exactly their (group, alert, expression) triples in order, with no problem |
| AlertFile.SplitUnlines | scripts/check-alerts.py:85-85 | splitting the text of a file gives back its lines |
| AlertFile.TextReadsBack | scripts/check-alerts.py:57-130 | the same from the file as one text |
| AlertGate.LineByLine | scripts/check-alerts.py:53-54 | in a file in which no key stands alone on its line, the pattern searched over the whole text finds exactly the lines it matches by themselves |
| AlertGate.GateAlertByAlert | scripts/check-alerts.py:177-193 | in such a file the gate opens exactly when the pattern matches some line, every line it matches begins a rule, every rule begun came back in order and nothing was beyond the scanner |
| AlertSearch.SearchByLine | scripts/check-alerts.py:53-54 | in any file the pattern searched over the whole text finds exactly the keys a walk over its lines finds, a key with no value taking the first word below for one |
| AlertSearch.GateOnAnyFile | scripts/check-alerts.py:177-193 | on any file the gate opens exactly when the walk finds as many keys as the scanner begins rules, and at least one, all begun came back and nothing was beyond the scanner; and when it opens, the keys found are the rules begun if and only if the search passes over no rule begun |
| AlertSearch.FoundAndBegun | scripts/check-alerts.py:177-193 | the keys found that begin a rule are as many as the keys found exactly when every key found begins one, and as many as the rules begun exactly when none of those is passed over |
| AlertMisled.CountIsMisled | scripts/check-alerts.py:177-193 | without that condition the counts can agree on different alerts: a family of files on which the gate opens though the scanner takes a line the pattern matches into an expression |
| AlertMisled.MisledFile | scripts/check-alerts.py:177-193 | one such file |
| AlertMisled.MatchTakesDash | scripts/check-alerts.py:53-54 | on them the match at a key with no value takes the dash of the next rule, so that rule is not matched |
| AlertGate.SpellDeclares | scripts/check-alerts.py:53-54 | over a file whose lines, comments and blank lines aside, are rows that spell so many alerts, the pattern finds exactly as many, line by line |
| AlertGate.GateOpensOnFile | scripts/check-alerts.py:177-193 | the gate opens on every file that is the text of groups with at least one rule, whose other keys and block lines do not spell an alert key, with comments, commented-out rules and blank lines interspersed |
| Coverage.Fields | scripts/check-coverage.py:57-60 | the three parts join back to the line, and the last two hold no space |
| Coverage.FieldsExactly | scripts/check-coverage.py:60-62 | a line has three fields exactly when it has two spaces |
| Coverage.FieldsPutTogether | scripts/check-coverage.py:57-60 | a line comes apart as it was put together, spaces in the file name included |
| Coverage.BlockReadBack | scripts/check-coverage.py:57-71 | a block line is read back as the block it was written for, with the fault of its numbers if they have one |
| Coverage.ReadLineExactly | scripts/check-coverage.py:54-62 | a line is passed over exactly when it is blank or begins with `mode:`; any other is refused as no block exactly when it is not a location with a colon and two more fields |
| Coverage.ReadProfile | scripts/check-coverage.py:46-72 | counts exactly when every line is readable, covered being the statements of hit blocks and total those plus the rest; otherwise the first bad line and its fault |
| Coverage.PassesExactly | scripts/check-coverage.py:93-111 | the exit code is 0 exactly when statements were measured and 100 * covered >= floor * total |
| Coverage.CeilRounded | scripts/check-coverage.py:103-103 | rounding to six decimals first changes the ceiling exactly when the value is above an integer by at most half a millionth, and then by one |
| Coverage.NeededIsGap | scripts/check-coverage.py:102-107 | the reported number is the least that meets the floor if and only if the demand is resolvable; otherwise it is one short |
| Coverage.FourDecimals | scripts/check-coverage.py:79-80 | a floor with at most four decimals is always resolvable |
| Coverage.GapClosesGate | scripts/check-coverage.py:99-108 | for a floor of at most 100 the reported number lies between 1 and the uncovered statements, and the gate passes with so many more covered exactly from that number on |
| Coverage.NothingMissing | scripts/check-coverage.py:102-107 | a floor for which the gate fails and reports that nothing is missing |
| BindingRefresh.StepInv | cmd/wecert/binding_refresh.go:37-81 | every step of ticker, loop, cancellation and stop callers keeps the invariant |
| BindingRefresh.OneAtATime | cmd/wecert/binding_refresh.go:45-69 | over every run: at most one refresh in flight, `done` closed at most once and with none in flight, and never more refreshes than intervals that are over, so none at once |
| BindingRefresh.AtMostOneAnInterval | cmd/wecert/binding_refresh.go:52-59 | in any stretch of any run at most one refresh begins for each interval it touches, and one more if a tick was waiting when it began |
| BindingRefresh.StopIsBounded | cmd/wecert/binding_refresh.go:71-88 | over every run: no stop call waits past the drain bound, and one that gives up does so at its deadline |
| BindingRefresh.DrainedMeansDone | cmd/wecert/binding_refresh.go:73-76 | once a stop call returned through `done`, no refresh is in flight and none ever begins |
| BindingRefresh.WarningIsTrue | cmd/wecert/binding_refresh.go:77-80 | a stop call that gives up does so at a moment at which a refresh was in flight |
| BindingRefresh.RefreshAfterCancel | cmd/wecert/binding_refresh.go:54-59 | for every interval there is a run in which a stop is called before any refresh and one begins nonetheless |
| BindingRefresh.BeginsExactly | cmd/wecert/binding_refresh.go:49-69 | a refresh can still begin if and only if the loop has not returned and is in a refresh, or not cancelled, or has a tick there or due |
| BindingRefresh.CancelledExactly | cmd/wecert/binding_refresh.go:52-56 | the loop's context is cancelled exactly from the first cancellation of the parent or call of the stop function on |
| BindingRefresh.CancelStops | cmd/wecert/binding_refresh.go:54-59 | cancelled while it waits with no tick there or due, by the parent or by a stop, the loop never begins another refresh |
| BindingRefresh.LeavesAtOnce | cmd/wecert/binding_refresh.go:54-56 | a cancelled loop can leave before the clock moves and without another refresh, a tick there or not |
| BindingRefresh.TimeNeverBlocks | cmd/wecert/binding_refresh.go:54-81 | from every state there is a schedule that brings everything that can run to rest |
| BindingRefresh.PromptRunsEnd | cmd/wecert/binding_refresh.go:54-81 | however they are scheduled, the goroutines that can run take at most one step each: every run of such steps is as long as the number it settles |
| BindingRefresh.QuietExactly | cmd/wecert/binding_refresh.go:54-81 | the clock can move on exactly when none of those steps is left, so with the drain bound every stop call returns |

## Left out

- The ACME engine, the state store, the rate limiter and the other packages under `internal/`: not part of this model.
- `cmd/wecert` apart from the binding refresh, `cmd/wecert-probe` and the deployment checkers: I/O and single decisions.
- The HTML tokenizer: a document is its sequence of events, each with its raw text. Tag names in the streams are markup names (never `#root`), and lower-casing is ASCII.
- HtmlRoundTrip.LosslessIff: `Tokenised` leaves out a lone `<` directly before an end tag or before text that begins with `/` or `!`, text at the end of the input that is an unfinished marked section, raw-text elements other than `script` and `style`, and tag names that hold a character the script takes for a space and the tokenizer does not, such as a vertical tab or a no-break space (there the equivalence fails, `CutNameComesBack`); on such streams only the direction of `Lossless` is proved.
- HtmlPage.BuildPage: stops at the translated tree; attribute translation, the language link and the banner are left out.
- `plain`, the class test for foreignObject blocks and the table: parameters of the translation (`Lexicon`).
- `translate_attrs`, the language switch link, the banner and the search for left-over Chinese: regular-expression splices on quoted text.
- `Node.parent`: written by the source and never read.
- HtmlBuilder.Builder.HandleEndTag: the search down the stack is a method of its own.
- HtmlTranslator.Translator.TranslateEach: the loop over the children is a recursion over the child list.
- HtmlBuilder.Builder.HandleStartEndTag: `self_closed` is set before the node is added, not after.
- The DOM, toasts and the warning banner of the console; a request is refused or answered, so time-outs, aborts and bad replies are one case, and an error message is never empty.
- The other callers of `loadLive` (buttons and timers): each is a start at an arbitrary moment.
- The renewal's domain shape and normalisation are parameters, and strings sort by Dafny characters rather than UTF-16 units.
- The Tencent Cloud SDK: servers are functions from request to answer, `same` stands for `strings.EqualFold`, clocks are integers, offsets do not wrap at 64 bits, and a listing's total is not negative.
- Preflight.FindDomain: the loop over the pages is a method of its own, `Search`.
- `ruleDomains`, the printed report and the flag checks of clbverify; the deletion and confirmation of preflight's prune.
- The checks of the alert file on series, labels and duplicate names, and YAML loading.
- AlertRoundTrip.RoundTrip: list items are nowhere deeper than an `expr:` key, as in the hand-written shape.
- AlertRules.ReadKeyLine: the branches on a line's prefix are the function `Classify`.
- Coverage.ReadProfile: Python's `int` is a parameter and the branches on one line are the function `ReadLine`.
- Coverage.NeededIsGap: over the reals; IEEE rounding of the product and the percentage is not modelled.
- Coverage.PassesExactly: likewise over the reals.
- BindingRefresh.StopIsBounded: a goroutine that can run does so before the clock moves on; scheduling delays are not modelled.
- BindingRefresh.OneAtATime: a tick may be late, and makes up for those missed as the ticker does; what a refresh returns does not change the loop and is left out.
