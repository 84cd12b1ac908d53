# klens, proved

klens is a kubectl plugin that lists Kubernetes objects as aligned tables and grades them. This
project models the parts of it in which a mistake would show as a wrong answer rather than a
crash, and proves that the fast forms the program uses mean what the simple ones would.

* **Listing** (`Listing`, `Fanout`, `Plans`): the paged walk over one collection; nested
  concurrent calls whose workers take turns at one process-wide semaphore, as a transition
  system over arbitrary schedules; and the choice between one list, a list per namespace and one
  wide list compacted in place.
* **Tables** (`Ansi`, `Rendering`, `Tables`, `Readback`, `Verdicts`, `Colours`): the hand-written
  scanner for colour sequences against the regexp it stands for; widths and padding; rows stored
  in shared blocks; filtering, hiding and sorting; the output read back line by line; the order of
  verdict tables; and that colour changes none of it.
* **Arguments and scopes** (`FlagArgs`, `Glob`, `Scopes`): flags among positional arguments; the
  glob suggested for a regexp; expanding `-n`.
* **Analysers** (`NetworkPolicies`, `StatefulClaims`, `References`, `ClaimMounts`, `Qos`): the
  isolation verdict of a pod and of a namespace against the section "The two sorts of pod
  isolation" of the Kubernetes documentation page "Network Policies"; three indexes against the
  scans they replace; the narrowed pod list; the QoS class and totals.
* `Sequences`, `Sorting` and `Text` hold what these share: in particular, that a stable sort is
  determined by its order, that two passes are one lexicographic sort, and that sorting commutes
  with mapping and filtering.

Loops and fields of the program are loops and fields here; each such method is proved to compute
a function whose properties are then proved as lemmas. `dafny verify dfyconfig.toml` checks
everything.

Some laws hold only under a condition. For the first five the condition is proved to be the
exact one, for all inputs; for the last, a class of inputs on which the law is an equivalence is
given beside one on which it fails:

* The query plans return the same objects on a given cluster if and only if no namespace that
  holds one is in the scope twice; on every cluster, if and only if the names are distinct.
* The flag loop means a single pass over the arguments if and only if no flag value "--" stands
  right before a positional with something other than plain tokens after it; arguments that give
  no flag that value are safe. The comment at `internal/cli/cli.go:362-365` promises the single
  pass without a condition; the model follows the code, and `CommandMisreads` is an input on
  which the two differ.
* The suggested glob and the regexp agree on a slash-free name, for every regexp, if and only if
  the name has no line break (a dot of a Go regexp does not match one).
* Claim names lead back to their sets if and only if sets of one namespace that share a name
  prefix share the replica count.
* Stripping colours twice is stripping them once if and only if the characters outside the
  sequences nowhere join up to a new one.
* ALLOW-ALL is sound. Wherever the policies leave an endpoint of each family and a port that none
  of them is about, it is complete, too: the verdict is OPEN or ALLOW-ALL exactly when one of the
  two endpoints is admitted.

## Model

| member | source | states |
|---|---|---|
| `Listing.ListAll` | internal/kube/list.go:87-113 | the result is the replies' items in order or the first error with no items; request k repeats the caller's selector with the chunk limit and the token of reply k - 1, and there is one request per reply |
| `Listing.FirstFailureEndsTheWalk` | internal/kube/list.go:87-113 | only the last reply of a walk can be an error or lack a token; an error there means no items at all, otherwise all pages' items |
| `Listing.WalkReturnsTheCollection` | internal/kube/list.go:76-113 | however a server cuts a collection into pages, whatever it says remains, and whatever it answers to tokens it never issued, the walk returns exactly the collection in order |
| `Listing.WalkCost` | internal/kube/list.go:34-51 | a server that fills the pages of the tokens it issues is asked max(1, ceil(n / ChunkSize)) times |
| `Fanout.WalkStep` | internal/kube/list.go:28-32 | a paging goroutine's step takes a slot only for a request and gives back exactly the one it holds; its eventual answer is unchanged and its remaining work shrinks |
| `Fanout.AnyStep` | internal/kube/list.go:28-32 | the same for any goroutine of any nesting of concurrent calls: invariant kept, answer unchanged, occupied slots change with the slots held, never beyond the bound, remaining work shrinks |
| `Fanout.OnTheWireHoldsSlots` | internal/kube/list.go:53-74 | requests in progress never outnumber the slots held |
| `Fanout.SomeoneCanMove` | internal/kube/list.go:28-32 | no deadlock: a waiting goroutine holds no slot, so while a call is unfinished some goroutine can step |
| `Fanout.EveryReachableState` | internal/kube/list.go:53-74 | in every state any schedule reaches, occupied slots are exactly those held and at most MaxInFlight, requests do not exceed them, and someone can move unless the call has returned |
| `Fanout.EveryRunAgrees` | internal/kube/list.go:179-188 | no schedule is longer than the work there was, and whatever the interleaving, a call that returns has given back every slot and returns its sequential meaning: the values, or the error of the lowest-numbered function that failed |
| `Fanout.FirstError` | internal/kube/list.go:176-188 | the error returned is that of the first function in argument order that failed, and there is one exactly when one failed |
| `Fanout.RunToEnd` | internal/kube/list.go:179-188 | under any scheduler that does not idle, the call terminates with its sequential meaning |
| `Plans.NestedFanoutIsFresh` | internal/kube/list.go:53-60 | a view's lists, each with its own scope and options and fanned out in turn, are a call the results about runs apply to |
| `Plans.LowestFailureWins` | internal/kube/list.go:165-168 | the fan-out's error is that of the lowest-indexed namespace whose list failed |
| `Plans.ScopedMeaning` | internal/kube/list.go:142-169 | under any schedule the chosen plan returns each namespace's items concatenated in scope order, or the wide list filtered, or the single list |
| `Plans.FanoutIsCapped` | internal/kube/list.go:115-156 | one list for one namespace or for all, one each for 2 to 16, one for more; never more than 16 at once |
| `Plans.FanoutInScopeOrder` | internal/kube/list.go:157-168 | a namespace's items stand between those of the namespaces before it in the scope and of those after it |
| `Plans.NestedFanoutMeaning` | internal/kube/list.go:179-188 | a view gets every one of its scoped lists whole, each by its own options, or the error of the first that failed |
| `Plans.CompactInPlace` | internal/kube/list.go:207-220 | the array's front part becomes exactly the wanted elements in order |
| `Plans.ListWideFiltered` | internal/kube/list.go:194-221 | the cluster-wide list reduced to the scope's namespaces, or its error |
| `Plans.ListScoped` | internal/kube/list.go:142-169 | equals the scheduling-free outcome of the plan the scope's size selects |
| `Plans.FanoutCounts` | internal/kube/list.go:157-168 | the fan-out returns every object once per occurrence of its namespace in the scope |
| `Plans.WideCounts` | internal/kube/list.go:190-221 | the wide list returns every object of a scoped namespace exactly once |
| `Plans.PlansAgreeExactly` | internal/kube/list.go:136-221 | over a snapshot, the fan-out and the wide list return the same objects if and only if the namespace of no object is given more than once |
| `Plans.PlansAgree` | internal/kube/list.go:115-169 | for distinct namespaces, both plans return the same objects, so crossing MaxNamespaceFanout never shows |
| `Plans.PlansAgreeExactlyOnDistinctNames` | internal/kube/list.go:136-221 | what the two plans return is the same on every cluster if and only if the names are distinct; with a repeated one, a server holding a single object tells them apart |
| `Plans.ScopedListsTheScope` | internal/kube/list.go:136-169 | a scoped list returns exactly the objects of the scope, all of them for an empty scope |
| `Ansi.MatchIsUnique` | internal/kube/color.go:61-61 | a prefix in the language of the colour regexp is the only one |
| `Ansi.MatchesDisjoint` | internal/kube/color.go:61-61 | two matches of the colour regexp that overlap are the same match |
| `Ansi.SgrLanguage` | internal/kube/color.go:61-61 | the language of the colour regexp, by character codes |
| `Ansi.StripIsVisible` | internal/kube/color.go:63-72 | replacing leftmost matches one by one leaves exactly the characters no match covers |
| `Ansi.StripAnsi` | internal/kube/color.go:63-72 | the result is the uncovered text, on the fast path too |
| `Ansi.VisibleWidth` | internal/kube/color.go:76-107 | the single pass counts exactly the characters no colour sequence covers, for truncated, malformed and adjacent sequences alike |
| `Ansi.StripAppend` | internal/kube/color.go:61-72 | stripping distributes over concatenation when the second part cannot continue a sequence |
| `Ansi.PaintIsInvisible` | internal/kube/color.go:24-36 | colouring never changes what is visible, even around broken sequences |
| `Ansi.PaintFrames` | internal/kube/color.go:24-36 | painted text is the code, the text and a reset; without colour, and for no text, it is the text |
| `Ansi.StripTwiceExactly` | internal/kube/color.go:61-72 | stripping again changes nothing if and only if the uncovered characters, read on from an uncovered position, nowhere begin with a sequence |
| `Ansi.WellFormedStripsToPlain` | internal/kube/color.go:61-72 | text whose every escape character belongs to a sequence strips to text without any, and so for good |
| `Ansi.StripLeavesSequencesItCreates` | internal/kube/color.go:61-72 | a string on which stripping again does change something |
| `Rendering.EverythingFits` | internal/kube/table.go:97-108 | no shown row has a cell wider than its column, so no Repeat count falls below the gap |
| `Rendering.ColumnWidthAttained` | internal/kube/table.go:97-108 | every column is as wide as one of its cells |
| `Rendering.MeasureWidths` | internal/kube/table.go:97-108 | the loop computes the widest visible cell of header and rows per column; short and long rows included |
| `Rendering.PadTo` | internal/kube/table.go:197-199 | the padding completes the cell to its column width plus the gap |
| `Rendering.WriteLine` | internal/kube/table.go:187-202 | appends the line of the padded cells, headers painted |
| `Rendering.LineAligned` | internal/kube/table.go:187-202 | in the visible text of a line, cell i stands at the sum of the earlier widths and gaps, whatever the cells hold |
| `Rendering.MaxPadding` | internal/kube/table.go:174-185 | no line's padding exceeds the bound |
| `Tables.Table.constructor` | internal/kube/table.go:30-33 | a new table holds no row and no setting |
| `Tables.Table.Reserve` | internal/kube/table.go:45-47 | after it there is room for the row, in the old block or in a fresh one |
| `Tables.Table.Row` | internal/kube/table.go:43-52 | the stored rows are the old ones and a copy of the cells passed; rows keep disjoint ranges and the caller's buffer is neither kept nor written |
| `Tables.StoredRowsStay` | internal/kube/table.go:35-52 | whatever happens outside the table's blocks, in the caller's buffer for one, every stored row still reads as it was passed |
| `Tables.SeparateMeansDisjoint` | internal/kube/table.go:35-41 | two stored rows never share a cell of a block |
| `Tables.Table.Flush` | internal/kube/table.go:88-125 | leaves the printed rows in the table and writes exactly header, printed rows and the count of hidden ones |
| `Tables.PrintedRows` | internal/kube/table.go:91-96 | the printed rows are exactly those that pass the filter and are not hidden, each as often as it was stored; printed plus hidden are the rows that pass; their order is the stable one of the sort column |
| `Tables.PatternsSelectRows` | internal/kube/table.go:61-72 | a row is printed exactly when it is not to be hidden and any one of the patterns matches the visible text of any one of the named columns; without patterns or without such a column, filtering keeps every row |
| `Tables.NamesSelectRows` | internal/kube/table.go:61-72 | with plain names, exactly the rows that show one of the names in one of the columns |
| `Tables.MoreNamesKeepRows` | internal/kube/table.go:61-66 | one more name never drops a row |
| `Tables.PrintedAscending` | internal/kube/table.go:204-254 | of two printed rows the later has no smaller rank; without a ranking, and when every cell is a number, no smaller number; otherwise no smaller text, where the first difference decides |
| `Tables.TableAligned` | internal/kube/table.go:88-125 | every line of a flushed table shows its cells at the columns' offsets |
| `Readback.OutputReadsBack` | internal/kube/table.go:88-125 | the output cut at its line breaks is the header, the printed rows in order, one each, and, when rows are hidden, a line with their number and the note; every line shows each cell at its column with blanks up to the next one, two more than the column is wide, and nothing after the last |
| `Readback.BodyHoldsCell` | internal/kube/table.go:187-202 | in a line the cell stands as it was given; a header's stands bold and reset when colour is on |
| `Tables.FilterRows` | internal/kube/table.go:127-149 | keeps exactly the passing rows in order, all when there is no name or no such column |
| `Tables.HideRows` | internal/kube/table.go:151-160 | drops exactly the hidden rows and counts them |
| `Tables.SortKeysSortRows` | internal/kube/table.go:208-229 | sorting extracted keys and taking the rows back is sorting the rows by their cells |
| `Tables.ParseNumeric` | internal/kube/table.go:240-254 | numeric if and only if there is a row and every cell parses; then every key has its number |
| `Tables.ChooseOrder` | internal/kube/table.go:216-224 | the comparison chosen orders the keys as the rows' cells are ordered: by rank, else by number, else by text |
| `Tables.SortRows` | internal/kube/table.go:211-229 | the rows end up stably sorted by rank, number or visible text |
| `Tables.OrderIsTotal` | internal/kube/table.go:204-254 | each of the three orders is a total preorder, not-a-number included |
| `Sorting.StableSortCharacterised` | internal/kube/table.go:225-225 | being in order with every tie left as it was determines the stable sort: no other sequence is one |
| `Sorting.TwoPassesAreLexicographic` | internal/view/verdict.go:25-38 | a stable sort by one order and then by another is one sort by both, the second first |
| `Sorting.SortCommutesWithMap` | internal/kube/table.go:208-229 | decorating, sorting and taking the decoration off is sorting what was decorated |
| `Sorting.FilterCommutesWithSort` | internal/kube/scope.go:91-112 | deleting from the sorted list is sorting what is left |
| `Verdicts.VerdictRank` | internal/view/verdict.go:58-67 | an unlisted verdict ranks 0, a listed one by its distance from the end of the list |
| `Verdicts.Rank` | internal/view/verdict.go:53-67 | zero exactly for unlisted verdicts; otherwise it is the last place the verdict is listed at |
| `Verdicts.FlushVerdictsOrder` | internal/view/verdict.go:25-38 | pre-sorting by namespace and name and then sorting the painted table by verdict is one sort by (rank, namespace, name) of the shown findings |
| `Verdicts.FlushVerdicts` | internal/view/verdict.go:15-38 | ranks the VERDICT column by the list, sorts by it or by the column the user named, keeps every other setting, and flushes |
| `Verdicts.FlushedByVerdict` | internal/view/verdict.go:32-38 | without --sort these are the settings the results on verdict tables are about, the case of the column's name included |
| `Verdicts.RowShows` | internal/view/verdict.go:40-51 | a finding's row: namespace, name, the cells between, and the verdict in red, yellow, grey or green by its severity |
| `Colours.SameRowsPrinted` | internal/kube/table.go:91-96 | rows whose cells differ in colour only: the same rows are printed in the same order, and as many are hidden |
| `Colours.ColoursChangeNothing` | internal/kube/table.go:88-125 | the output of such a table, with colour on or off, is the same text once its colours are taken away: same rows, columns and note |
| `Colours.VerdictColoursChangeNothing` | internal/view/verdict.go:32-51 | in particular a verdict table reads the same with its verdicts and header painted or plain |
| `Verdicts.WorstComesLast` | internal/view/verdict.go:53-58 | ranks never fall down the table, unlisted verdicts come first, equal verdicts are in (namespace, name) order |
| `FlagArgs.FlagSet.ParseArgs` | internal/cli/cli.go:369-372 | one Parse of the flag package: sets flags up to the first positional or "--" and leaves the rest |
| `FlagArgs.FlagForms` | internal/cli/cli.go:369-372 | with one dash or two, "name=value" sets exactly that value, and "name" alone takes the next argument, or sets a switch to true and takes none |
| `FlagArgs.FlagErrors` | internal/cli/cli.go:369-371 | an unknown flag, a flag without its value and a value the flag rejects are the errors |
| `FlagArgs.ParseInterspersed` | internal/cli/cli.go:366-382 | terminates with the flags set and positionals of the recursive reading, or the first error and no positionals |
| `FlagArgs.InterspersedIsScan` | internal/cli/cli.go:362-382 | the loop means one left-to-right pass if and only if no flag value "--" is taken for the terminator |
| `FlagArgs.GivenIsScanned` | internal/cli/cli.go:362-365 | where one pass succeeds, the flags counted as given are exactly those it sets |
| `FlagArgs.NoDashValueNoMisreading` | internal/cli/cli.go:376-378 | arguments in which one pass gives no flag the value "--" are never misread |
| `FlagArgs.NoDashValueMeansScan` | internal/cli/cli.go:362-382 | on those arguments the loop is the single pass, errors included |
| `FlagArgs.MisreadExample` | internal/cli/cli.go:376-378 | an input whose flag value "--" hides a later flag from the loop, for any parser that takes its tokens as the flag package does |
| `FlagArgs.CommandMisreads` | internal/cli/cli.go:366-382 | every command with a valued --sort and a switch -w, whatever else it has, disagrees with the single pass on that input |
| `FlagArgs.OrderDoesNotMatter` | internal/cli/cli.go:362-382 | the consumed flag tokens, then "--", then the returned positionals, parse to the same assignments and positionals, by one Parse and by the loop |
| `FlagArgs.AfterTerminatorVerbatim` | internal/cli/cli.go:362-378 | behind any accepted arguments, flags and positionals mixed, "--" and what follows: read to their end, they keep their reading and the rest comes back verbatim; stopped by an earlier "--", this "--" comes back as well |
| `Glob.StarAcceptsRuns` | internal/kube/scope.go:50-57 | a star of path.Match stands for any run without a slash |
| `Glob.PlainNameMatchesItself` | internal/kube/table.go:162-172 | a pattern without special characters matches itself only |
| `Glob.OneCharacter` | internal/kube/table.go:162-172 | a question mark stands for one character but the slash, an escaped character for itself |
| `Glob.CharacterRange` | internal/kube/table.go:162-172 | a range stands for one of its characters and a negated one for one of the others |
| `Scopes.AsGlobRewrites` | internal/kube/scope.go:132-139 | on a regexp of literals, ".*" and ".+" with optional anchors, exactly those pieces are rewritten |
| `Scopes.AsGlobPreservesMeaning` | internal/kube/scope.go:132-139 | the suggested glob accepts exactly the slash-free, one-line names the anchored regexp accepts |
| `Scopes.GlobAndRegexpAgreeExactly` | internal/kube/scope.go:116-139 | on a slash-free name they agree for all such regexps if and only if the name has no line break |
| `Scopes.HintMeaning` | internal/kube/scope.go:116-130 | a hint is given exactly for a dot before a star or a plus, a leading "^" or a trailing "$", and it is the rewritten glob |
| `Scopes.LiteralsMatchThemselves` | internal/kube/scope.go:50-57 | what is looked up as a name would, as a glob, match that name only |
| `Scopes.Expand` | internal/kube/scope.go:87-114 | sorting the cluster's namespaces and deleting the others is sorting the matching ones |
| `Scopes.ResolveScope` | internal/kube/scope.go:67-100 | which error, or which namespaces, for every kind of -n value; on an error the scope stays as it was |
| `Scopes.ExpandedScope` | internal/kube/scope.go:67-100 | a glob resolves to the matching namespaces in order, each once |
| `NetworkPolicies.PolicyTypes` | internal/view/netpol.go:121-137 | the directions a policy governs, with the defaults of the API |
| `NetworkPolicies.AllowsAnyPeer` | internal/view/netpol.go:139-155 | true if and only if the rule has no port and no peer or an unrestricted all-addresses block |
| `NetworkPolicies.UnconditionalRules` | internal/view/netpol.go:139-155 | those rules written out: no ports, and no peers or one that is 0.0.0.0/0 or ::/0 without exceptions |
| `NetworkPolicies.CompilePolicy` | internal/view/netpol.go:99-119 | per direction, whether the policy governs it, has no rule, or has an unconditional one; nothing for a malformed selector |
| `NetworkPolicies.PodCoverage` | internal/view/netpol.go:157-181 | the verdict of the selecting policies, and their names in order |
| `NetworkPolicies.NamesInOrder` | internal/view/netpol.go:157-170 | the names are those of the selecting policies, one each, in the order of the policies |
| `NetworkPolicies.NamesOfApplying` | internal/view/netpol.go:99-170 | a name is printed for a pod exactly when it is that of a policy applying to the pod |
| `NetworkPolicies.CoverageMeaning` | internal/view/netpol.go:157-181 | each verdict in terms of the uncompiled policies that apply to the pod, both ways |
| `NetworkPolicies.OpenIsNotIsolated` | internal/view/netpol.go:171-173 | OPEN if and only if the pod is not isolated, and then every connection is admitted |
| `NetworkPolicies.DenyAdmitsNothing` | internal/view/netpol.go:176-177 | DENY: no connection is admitted |
| `NetworkPolicies.AllowAllAdmitsAFamily` | internal/view/netpol.go:174-175 | ALLOW-ALL: every peer of some address family is admitted on every port |
| `NetworkPolicies.RestrictedMeaning` | internal/view/netpol.go:178-180 | RESTRICTED if and only if the pod is isolated, some applying policy has a rule and none has an unconditional one |
| `NetworkPolicies.CoverageIgnoresOrder` | internal/view/netpol.go:157-181 | order and repetition of the policies do not matter |
| `NetworkPolicies.UnnamedEndpointsDecide` | internal/view/netpol.go:139-181 | how far ALLOW-ALL is complete: given an endpoint of each family, and a port, that no applying policy is about in particular, the verdict is OPEN or ALLOW-ALL if and only if one of the two endpoints is admitted |
| `NetworkPolicies.HalvesAreRestricted` | internal/view/netpol.go:149-153 | without that it is not: two half-blocks admit every IPv4 peer and read as RESTRICTED |
| `NetworkPolicies.TallyCounts` | internal/view/netpol.go:218-230 | the tally holds the number of verdicts and how many are OPEN, ALLOW-ALL and DENY |
| `NetworkPolicies.RollupMeaning` | internal/view/netpol.go:232-249 | each namespace verdict in terms of the pods' verdicts, with the counts PARTIAL prints |
| `NetworkPolicies.NetpolNamespaces` | internal/view/netpol.go:251-272 | one row per namespace with a pod or a policy, tallying its eligible pods' verdicts in both directions |
| `NetworkPolicies.RowMeaning` | internal/view/netpol.go:186-272 | a namespace's row counts, for each direction, the verdicts of its pods that are neither finished nor on the host network, and no others |
| `NetworkPolicies.RollupIsSound` | internal/view/netpol.go:232-272 | DEFAULT-DENY: nothing reaches an eligible pod; OPEN: none is isolated; RESTRICTED: each is |
| `StatefulClaims.StatefulSetClaims` | internal/view/pvcunused.go:126-136 | indexes every set with each of its templates, a later equal key replacing an earlier one |
| `StatefulClaims.ClaimsLeadToTheirSets` | internal/view/pvcunused.go:122-159 | for every set, template and ordinal, claim "ns/template-set-ordinal" is found to be the set's, beyond scale exactly from its replicas on (one when unset), if and only if sets of one namespace that share a prefix share the replica count |
| `StatefulClaims.MatchMeansSet` | internal/view/pvcunused.go:122-159 | a claim is matched exactly when it is named after a template and a set of its namespace, and then the slot is that of such a set |
| `StatefulClaims.VerdictMeaning` | internal/view/pvcunused.go:86-105 | the verdict by phase and sets: LOST and UNBOUND by phase alone; ORPHAN exactly when a bound claim is named after no set; SCALED-DOWN and STS-RESERVED by the ordinal and the replicas of a set it is named after |
| `StatefulClaims.LookupIsScan` | internal/view/pvcunused.go:138-159 | the lookup after cutting at the last dash equals trying all sets and templates |
| `Text.AtoiInvertsItoa` | internal/view/pvcunused.go:153-156 | an ordinal written in decimal is read back, up to the largest int, and rejected beyond it |
| `Text.ItoaDigits` | internal/kube/table.go:115-121 | the decimal text of a number has at every place the digit of that place, and no leading zero |
| `Text.DigitsPositional` | internal/view/pvcunused.go:153-156 | a digit counts for its place, leading zeros included |
| `Text.AtoiForms` | internal/view/pvcunused.go:153-156 | digits with or without a sign are read, within the range of the type |
| `Text.AtoiReadsSignedDigits` | internal/view/pvcunused.go:153-156 | and nothing else is |
| `Text.LowerFolds` | internal/kube/table.go:256-261 | names are told apart exactly up to the case of their letters |
| `Text.AtMostMeaning` | internal/view/verdict.go:25-30 | texts are ordered by the first character in which they differ, a prefix first |
| `StatefulClaims.MatchMeansOwner` | internal/view/pvcunused.go:138-159 | a match is some set's prefix plus an integer, in its namespace, beyond scale if and only if the integer is at least its replicas |
| `StatefulClaims.ClaimNamesRoundTrip` | internal/view/pvcunused.go:122-159 | every claim "template-set-k" resolves to its set, beyond scale exactly from its replica count on, if and only if sets of one namespace that share a prefix share the replica count (distinct prefixes among them) |
| `StatefulClaims.CollidingStems` | internal/view/pvcunused.go:126-136 | two sets with one prefix and different replica counts, the later of which answers for the claims of the earlier |
| `StatefulClaims.VerdictOfOwnedClaim` | internal/view/pvcunused.go:86-105 | ORPHAN exactly when no set's naming fits the claim; SCALED-DOWN or STS-RESERVED by the owner's replicas |
| `References.FieldsAreTokens` | internal/view/unusedconfig.go:185-210 | splitting yields exactly the maximal runs of name characters |
| `References.NameCharacters` | internal/view/unusedconfig.go:185-193 | the name characters, by their codes |
| `References.RefSet.Add` | internal/view/unusedconfig.go:159-163 | records the reference, and an empty name not at all |
| `References.RefSet.AddVolume` | internal/view/unusedconfig.go:212-235 | adds exactly the references a volume makes |
| `References.RefSet.AddContainer` | internal/view/unusedconfig.go:237-259 | adds exactly the references a container's environment makes |
| `References.RefSet.AddArgs` | internal/view/unusedconfig.go:195-210 | adds exactly the tokens of command and args |
| `References.RefSet.AddPodSpec` | internal/view/unusedconfig.go:169-183 | adds exactly what volumes, pull secrets and containers of every kind cite |
| `References.KeysNeverCollide` | internal/view/unusedconfig.go:159-167 | in namespaces without separators two references, or two cited tokens, never share a key |
| `References.HasMeaning` | internal/view/unusedconfig.go:165-167 | a lookup answers whether that very reference or token was added |
| `References.Collect` | internal/view/unusedconfig.go:61-85 | the index holds the union of what all workloads, accounts and ingresses cite |
| `References.UnionIgnoresOrder` | internal/view/unusedconfig.go:61-85 | the order in which objects are added does not matter |
| `References.IndexIsNaiveScan` | internal/view/unusedconfig.go:61-85 | an object is in use if and only if a pod spec, service account or ingress of its namespace names it, or an init, app or ephemeral container there cites its name as a token |
| `References.CleanObjectsCleanIndex` | internal/view/unusedconfig.go:159-167 | objects in namespaces without separators, the ones Kubernetes admits, give an index without collisions |
| `References.NoEmptyNames` | internal/view/unusedconfig.go:159-163 | an empty name is never recorded |
| `ClaimMounts.IndexMounts` | internal/view/pvcresize.go:216-224 | every claim is indexed to the names of the pods mounting it, once per mount, in list order |
| `ClaimMounts.MountersArePlaces` | internal/view/view.go:185-201 | the pods of a claim are the names at all volumes that are the claim, in list order, each volume once |
| `ClaimMounts.MountedClaims` | internal/view/pvcunused.go:107-114 | a claim is in the set if and only if some pod of its namespace mounts it |
| `ClaimMounts.MountedIffMounters` | internal/view/view.go:185-201 | the set and the index agree |
| `ClaimMounts.MountersOfMultiset` | internal/view/pvcresize.go:216-224 | the pods' order changes at most the order of a claim's pods |
| `ClaimMounts.MountersInNamespace` | internal/view/view.go:185-201 | pods outside the claim's namespace can be dropped |
| `ClaimMounts.SameCell` | internal/view/pvcresize.go:226-234 | the POD cell depends on which pods mount the claim and how often, not on their order |
| `ClaimMounts.PodCellShows` | internal/view/pvcresize.go:226-234 | the cell of no pods reads "<none>", the cell of one is its name, and cut at its commas a cell is its pods' names in text order, each as often as it mounts the claim |
| `ClaimMounts.NamespacesToAsk` | internal/view/pvcresize.go:116-128 | the user's scope, all namespaces past the cap, otherwise the rows' namespaces sorted, each once |
| `ClaimMounts.NarrowingAsksForTheRows` | internal/view/pvcresize.go:109-128 | without a scope of the user's, for at most 16 namespaces, exactly the rows' own are asked for |
| `ClaimMounts.NarrowingKeepsTheCell` | internal/view/pvcresize.go:109-128 | whichever branch ran, a row's POD cell is the one the cluster-wide pod list gives |
| `ClaimMounts.PodColumn` | internal/view/pvcresize.go:71-106 | the column of what the narrowed list returned, or that list's error; over a snapshot every cell shows the pods of the snapshot that mount the row's claim; empty without a pod list when there is no row |
| `Qos.QosClass` | internal/view/qos.go:85-118 | the status class, else BestEffort if no container sets anything, Guaranteed if all pin cpu and memory, Burstable otherwise |
| `Qos.DerivedMeaning` | internal/view/qos.go:92-118 | BestEffort exactly when no init or app container sets cpu or memory, Guaranteed exactly when each sets both, requests equal to limits |
| `Qos.AddQuantities` | internal/view/qos.go:142-157 | for cpu and memory, what is held grows by exactly what the list has, from nothing if nothing was held; everything else stays |
| `Qos.PodResources` | internal/view/qos.go:120-140 | the totals of app containers and native sidecars |
| `Qos.PodTotalsAreSums` | internal/view/qos.go:120-157 | a total is the integer sum over the app containers and the init containers marked sidecar, present exactly when one of them sets the resource; only cpu and memory have one |
| `Qos.ClassConstrainsTotals` | internal/view/qos.go:85-140 | for a derived class, Guaranteed means equal and equally present totals, and BestEffort empty ones |
| `Qos.PodTotalsIgnoreOrder` | internal/view/qos.go:120-157 | container order changes no total |

## Left out

- Kubernetes clients, RBAC and CRD fallbacks, kubeconfig: a page is a deterministic function of namespace and options, and its continue tokens run out.
- An expired continue token is one of the page function's failures; time is not modelled.
- A goroutine's step is one visible action (spawn, take a slot, receive, report, join); the memory model below that is not part of this model.
- The setters of a table's settings need no row: each assigns its part of the settings and keeps the rest.
- `listAll` hands back the server's own slice for one page and reserves capacity for more; the model has values there, so only the in-place compaction of `listWideFiltered` is on an array.
- Strings are sequences of code points, that is, valid UTF-8; invalid bytes are not part of this model.
- Case folding is ASCII; column names of klens are.
- `strconv.ParseFloat` is an abstract partial function; ranks are compared as integers, which float64 represents exactly up to 2^53.
- The byte count handed to `Builder.Grow` and writing the finished text to the output.
- `slices.DeleteFunc`, `slices.SortStableFunc`, `slices.Sort` and the flag package appear as their documented meaning; the model's copies of rows are what those calls return.
- A table's settings are one record in one field instead of eight fields.
- Flag types are a switch or a valued flag with an abstract set of accepted values; printing usage on an error.
- Label selectors, address blocks and ports of network policies are uninterpreted predicates, except that 0.0.0.0/0 and ::/0 hold all addresses of their family.
- A namespace's two tallies are values in a map, not pointers; the netpol tables' row order, colours and the listing of policies per pod.
- The resize verdict, StorageClass lookup and capacity cells of pvc-resize, and the claim's own listing: rows are given as claims whose namespaces lie in the scope.
- References.KeysNeverCollide: asks for namespaces without "/" and "|", which Kubernetes guarantees.
- StatefulClaims.LookupIsScan: asks for namespaces without "/", which Kubernetes guarantees.
- Readback.OutputReadsBack: asks for cells and note without line breaks; a cell with one is printed as it is and spans lines.
- Platform ConfigMaps and Secrets, sizes and owners of unused-config; QoS verdicts, which one switch reads off the class.
- The small verdict switches (pdb, hpa, probes, spread, terminating, volumes), certificates, YAML, terminal handling, completion, watching: easy members or library calls.
