# Proofs about the chart's guards

A Dafny model of the twelve scripts of this Helm chart repository that evaluate, parse or rewrite something, and proofs
of what they promise. Each module models one script, or one part of a long one, and is checked against a definition
that does not mention the script: one Kubernetes RBAC authorizer for the three RBAC guards, a step model of the Envoy
filter chain for the header guard, a tree that prints to a template for the two template parsers, reachability for the
fixpoint, and so on.

Loops and in-place updates of the scripts are methods over arrays and fields, each proved equal to a specification
function; the laws are lemmas about those functions.

| module | models |
|---|---|
| Prelude | string operations shared by the guards |
| Rbac | the authorizer: binding scope, role reference, rule match, resource names |
| OwnerReaders, RbacForms, Takeover, TakeoverLaws, TakeoverRequests, RenderedTakeovers | who reads an owner credential, and who can take a reader over |
| ResourcePatterns, OperatorRbac | what a listed resource reaches, and one role covering another |
| KubectlArgv, KubectlRequests, KubectlMeanings, KubectlLog, KubectlCheck, KubectlLosses | from a recorded kubectl argv to API requests and their verdict |
| JwtEdge | the audit of the JWT filter against the verifier's steps |
| ZitadelRoutes, ZitadelAllowlist | the first-match router and the route allowlist |
| RateLimits | quotas against the fuse in front of them |
| ShellLexer, ShellTrees, ShellWords, ShellLines, SecretArgv, TaintChains | the shell lexer against printed command lines, the recursive scanner for secrets on a command line, and what three passes taint |
| TemplateText, ActionWords, TemplateComments, CommentTexts, OrphanTemplates, InertTemplates, FirstWords | templates as trees, what an action or a comment is written as, and the first-word parser |
| HelperDocs, HelperEvents, HelperOrder, EntryPlaces, HelperReach, HelperPlaces, HelperTexts | the keyword parser, and where it records comments |
| PipefailClosure | the closure over sourced scripts |
| ChartStamp | the freshness stamp |
| PinText, PinLines, TagReplace, Pins, BumpImage, BumpRuns, BumpRefs | finding image pins and rewriting them in place |

Check everything with `dafny verify dfyconfig.toml`.

## Where the code and its prose part

The model follows the code. These are the places where a promise needs a condition, or a comment says otherwise, each with
the exact condition.

- `cmd_bump` stops at the first pin it changes in a file (scripts/bump-image-digest.py:362), so one run makes one pin
  current: `BumpRuns.RunsConverge`. Its rewrite is idempotent exactly under `BumpImage.WritesSafely` with separate keys
  (`BumpImage.SeparateTwiceIff`). For a tag that carries its digest, whatever digest key stands beside it, it is idempotent
  exactly when there was nothing to renew, the replacement comes to the place the value was read from, or what is read
  instead needs nothing; beside a digest key that is there and blank such a leftover without `@` turns the pin into one with
  separate keys, whose blank key is then written (`BumpImage.CombinedTwiceIff`, `BumpImage.BlankDigestDrifts`).
- `pipe_order` makes one forward pass: two pipes back to back whose second create comes first end in an error, and only
  these (`KubectlLog.PairedLogsRun`).
- A Secret called `secrets` reads as "every Secret" in `can_read`: its records are exact over all documents if and only if no
  such Secret stands among other owner Secrets (`OwnerReaders.ExactReadsIff`).
- `bound_rules` takes a RoleBinding without a namespace for a cluster-wide one, and lets a ClusterRoleBinding bind a Role.
  A binding is credited with more than it gives exactly when it is one of these and some rule it binds grants anything
  (`KubectlCheck.BindingIsHonestIff`). In the other direction it follows neither aggregation nor built-in ClusterRoles nor
  groups, and no resource patterns: a binding is credited with all it gives exactly when each (group, resource, verb) its
  rules list is credited, under each name that a request can carry (`KubectlLosses.BindingLosesNothingIff`).
- `missing` ignores resourceNames: all of a role without names is granted exactly when the chart's rules without names grant
  each of its triples, by the resource or by a pattern such as `pods/*` that spans it; without such patterns, exactly when
  those rules pass the check by themselves (`OperatorRbac.NamesMayLoseRequests`, `OperatorRbac.PatternMakesUp`). It assumes
  the core group on the wanted side alone (`OperatorRbac.CoverageOfItself`).
- The JWT audit does not look at a route that turns ext_authz back on inside a sealed host. A clean config is unforgeable
  exactly when no such route has a jwt_authn override that passes a request untouched
  (`JwtEdge.CleanIsUnforgeableIff`).
- The route allowlist alone leaves the admin surface open to exactly the prefixes that stop short of an admin prefix and the
  expressions that match a path under it (`ZitadelAllowlist.ReachedIff`); the guard's probes are there for that.
- `quota_rates` documents the tightest quota and keeps the loosest: the same exactly when all leaves state one rate
  (`RateLimits.KeptIsTightestIff`, `RateLimits.ReportedWhileApplyingIff`).
- `taint` stops after three passes: it finds exactly what is reached with at most two steps to the same or an earlier line
  (`TaintChains.TaintedIsTwoTurns`).
- `_define_bodies` goes by an action's first word and `parse` by a keyword at a word boundary, so they differ on
  `{{if(x)}}` (`HelperDocs.UnspacedIfCutsBody`); `FirstWords.BodiesOfPrintIff` says exactly when a body is cut short.
- `parse` sorts comments in front of the actions of their line. A comment on one line is then judged by what is open across
  the start of that line: behind the `end` of a longer define it counts as that define's body, behind the opener of one it
  counts as standing at the top, although the docstring puts comments inside a body out of scope
  (`HelperTexts.BothTextsGoWrong`). `HelperPlaces.EntriesOfPrintIff` says exactly when the entries are the template's.
- A tarball of `gibson-crds` satisfies the glob of `gibson`; "none missing" means a tarball each exactly when no two names
  overlap in this way (`ChartStamp.NoneMissingMeansOwnIff`).

## Model

| member | source | states |
|---|---|---|
| Rbac.AggregatedHolds | scripts/check-owner-credential-readers.py:214-219 | aggregation gives a ClusterRole exactly its own rules and those of every other ClusterRole that one of its selectors matches |
| Rbac.AggregatedKeepsOwn | scripts/check-owner-credential-readers.py:214-219 | its own rules come first, in their own order |
| OwnerReaders.RuleAllowsIsMatch | scripts/check-owner-credential-readers.py:162-175 | the guard's test of one rule on Secrets is the authorizer's rule match: group, resource, verb and names |
| OwnerReaders.SelectRules | scripts/check-owner-credential-readers.py:216-218 | one selector takes the rules of every other ClusterRole whose labels match, in document order |
| OwnerReaders.RoleRules | scripts/check-owner-credential-readers.py:207-220 | the role table answers every key as the last definition in the documents does, ClusterRoles with one level of aggregation |
| RbacForms.LastDefinitionCounts | scripts/check-owner-credential-readers.py:207-220 | of several definitions of one role the last one counts, and a role no document defines has no rules |
| RbacForms.RefResolves | scripts/check-owner-credential-readers.py:239-243 | a Role is looked up in the binding's own namespace alone, a ClusterRole in the documents before the built-in ones, and anything else nowhere |
| OwnerReaders.ResolveIn | scripts/check-owner-credential-readers.py:239-243 | a roleRef resolves to the table's rules, a missing ClusterRole to the built-in one, anything else to nothing |
| OwnerReaders.HeldReads | scripts/check-owner-credential-readers.py:248-255 | per verb: every Secret when some rule names none, otherwise exactly the owner Secrets some rule grants |
| OwnerReaders.AddSubjects | scripts/check-owner-credential-readers.py:258-268 | the reads go to exactly the listed ServiceAccounts, and the errors added are exactly the listed groups that hold every account |
| OwnerReaders.ReadBinding | scripts/check-owner-credential-readers.py:232-268 | one binding adds exactly its own records, and exactly its own errors: an unknown role, or each all-account group that gains a read |
| OwnerReaders.CanRead | scripts/check-owner-credential-readers.py:223-269 | the exact records and the exact errors over all documents; with no error, an account is recorded for a verb on an owner Secret exactly when the authorizer grants it that read (or the clash below applies), over RoleBindings, ClusterRoleBindings, built-in and aggregated roles |
| OwnerReaders.RecordedIsAuthorized | scripts/check-owner-credential-readers.py:248-268 | no binding records more than the authorizer grants, apart from the one name clash |
| OwnerReaders.AuthorizedIsRecorded | scripts/check-owner-credential-readers.py:256-268 | where no all-account group gains a read, whatever a binding authorizes is recorded |
| OwnerReaders.RecordsAreAuthority | scripts/check-owner-credential-readers.py:223-269 | both directions over all documents: recorded if and only if authorized or clashing |
| OwnerReaders.NameClash | scripts/check-owner-credential-readers.py:250-255 | a rule naming only a Secret called `secrets` is recorded as a read of every owner Secret without being one |
| OwnerReaders.ExactReadsIff | scripts/check-owner-credential-readers.py:223-269 | where no all-account group gains a read, the records are exact over all documents if and only if no Secret called `secrets` stands among other owner Secrets |
| OwnerReaders.EveryReadIsJudged | scripts/check-owner-credential-readers.py:223-269 | without the clash, a record of get, list or watch on an owner Secret stands exactly where the authorizer grants that one request in the guarded namespace |
| OwnerReaders.HoldsEveryAccountIff | scripts/check-owner-credential-readers.py:260-262 | the groups the code flags are exactly those that hold an account, and each of them holds every account of a namespace as soon as it holds one |
| RbacForms.BuiltinsAllow | scripts/check-owner-credential-readers.py:198-204 | what the five built-in ClusterRoles allow: one everything, two exactly the reads of Secrets, two nothing, and no other name is built in |
| RbacForms.OperatorsOppose | scripts/check-owner-credential-readers.py:182-192 | In and NotIn, Exists and DoesNotExist are each other's opposites, Exists is In with some value, and In with many values is In with one of them |
| RbacForms.SelectorsNarrow | scripts/check-owner-credential-readers.py:178-192 | the empty selector matches all labels, and each label or test added asks for exactly that much more |
| RbacForms.WrittenOutAuthorizesAlike | scripts/check-owner-credential-readers.py:236-240 | writing the default namespace out on every role, binding and subject that names none changes nothing that anybody is authorized for |
| RbacForms.BindingReads | scripts/check-owner-credential-readers.py:236-267 | a binding document read on its own: where its rules hold and which accounts its subjects are |
| Takeover.Grant | scripts/check-owner-credential-readers.py:306-324 | a verb list hits exactly when some rule grants one of its verbs; unrestricted and named hits are told apart exactly |
| Takeover.GrantMeans | scripts/check-owner-credential-readers.py:306-324 | on a resource with a name, a hit that fits the name is exactly what the authorizer grants in that scope |
| Takeover.HitMeans | scripts/check-owner-credential-readers.py:306-324 | a hit under any name is exactly the authority over some name in that scope |
| Takeover.WorkloadPowers | scripts/check-owner-credential-readers.py:388-406 | exec and patch over one workload are found exactly when the authority reaches its pods or its object |
| Takeover.DirectPowers | scripts/check-owner-credential-readers.py:388-423 | exec, patch, create-pod, token and impersonate are reported exactly when the rules' authority holds them, minus the holder's own account |
| Takeover.IsWorthBinding | scripts/check-owner-credential-readers.py:432-437 | a role is worth binding exactly when its own rules read an owner Secret or hold a takeover |
| TakeoverRequests.RoleReadsIff | scripts/check-owner-credential-readers.py:363-369 | a role counts as a reader exactly when its rules allow get, list or watch on every Secret or on an owner Secret by name |
| Takeover.BindKind | scripts/check-owner-credential-readers.py:427-443 | the bind targets of one role kind are exactly those both grants allow and that are worth binding |
| Takeover.BindPowers | scripts/check-owner-credential-readers.py:424-443 | all bind targets, Roles and ClusterRoles alike, are found exactly |
| Takeover.Powers | scripts/check-owner-credential-readers.py:372-444 | the whole report of one rule list: every power and target, each exactly when held |
| TakeoverLaws.PowerOfUnion | scripts/check-owner-credential-readers.py:388-423 | for every power but bind, an authority split in two holds a power exactly when one part does |
| TakeoverLaws.PowerIsMonotone | scripts/check-owner-credential-readers.py:388-423 | a wider authority keeps every power |
| TakeoverLaws.PowersDistribute | scripts/check-owner-credential-readers.py:388-423 | judging bindings one at a time is judging their rules together, for every power but bind |
| TakeoverLaws.PowersGrow | scripts/check-owner-credential-readers.py:388-423 | more rules, or one namespace widened to the cluster, never lose a power |
| TakeoverLaws.BindGrows | scripts/check-owner-credential-readers.py:424-443 | bind too only grows with rules and scope |
| TakeoverLaws.BindNeedsBothGrants | scripts/check-owner-credential-readers.py:424-443 | two bindings together can bind where neither does alone, so judging them singly finds less |
| TakeoverRequests.PowerIsOneRequest | scripts/check-owner-credential-readers.py:388-423 | an authority has a power other than bind over a target exactly when it holds one request, spelled out by verb, group, resource, namespace and name, that alone gives that power |
| TakeoverRequests.BindIsTwoRequests | scripts/check-owner-credential-readers.py:424-443 | a grant binds every role of a kind exactly when it holds two requests: a write of bindings with a bind of all roles, or an escalate with a write of roles |
| TakeoverRequests.NamedBindIs | scripts/check-owner-credential-readers.py:429-437 | a named role can be bound exactly with a write of bindings and a rule that grants bind under that name, where the role is worth it |
| RenderedTakeovers.OverSubjects | scripts/check-owner-credential-readers.py:477-489 | one binding's powers go to its ServiceAccounts, and an all-account group that gains one is flagged, both exactly |
| RenderedTakeovers.OverBinding | scripts/check-owner-credential-readers.py:470-489 | one binding document: exactly the powers its resolved rules give its subjects |
| RenderedTakeovers.OverBindings | scripts/check-owner-credential-readers.py:457-489 | one render: exactly the union of what its bindings give |
| RenderedTakeovers.BindingShare | scripts/check-owner-credential-readers.py:470-489 | without an all-account group, a binding's share of an account's authority is what the guard reports for it |
| RenderedTakeovers.ReportsAreAuthority | scripts/check-owner-credential-readers.py:447-489 | an account is reported for a power exactly when everything it is authorized for, groups included, gives that power (bind aside) |
| RenderedTakeovers.OverRenders | scripts/check-owner-credential-readers.py:447-489 | over all renders: the findings are exact for every power but bind, and what one binding gives for bind |
| RenderedTakeovers.MergedIsAuthorized | scripts/check-owner-credential-readers.py:447-489 | the rules an account holds at least in a scope, all bindings taken together, are authority the API server grants it |
| RenderedTakeovers.BindFindingIsHeld | scripts/check-owner-credential-readers.py:424-443 | a bind finding is sound: the merged rules of its scope hold that bind |
| OperatorRbac.Missing | scripts/check-operator-rbac-covers.py:62-69 | the gaps are exactly the wanted (group, resource, verb) triples no rule covers |
| OperatorRbac.CoverageAuthorizes | scripts/check-operator-rbac-covers.py:62-69 | nothing missing and no resourceNames: every request the operator's role authorizes, wildcards included, the chart's rules authorize |
| OperatorRbac.CoverageIsExact | scripts/check-operator-rbac-covers.py:57-69 | without subresource wildcards the converse holds too: nothing is missing if and only if every request carries over |
| OperatorRbac.NamedCoverageIsExact | scripts/check-operator-rbac-covers.py:57-69 | for any rules on either side, names and patterns included, the role read as the check reads it (no apiGroups: the core group): every request carries over if and only if, for each wanted triple, one rule of the chart lists something that reaches all of it, under each wanted name, or without names where the wanted rule has none |
| OperatorRbac.NamesMayLoseRequests | scripts/check-operator-rbac-covers.py:57-69 | for a role without names and any chart rules: all its requests carry over if and only if the chart's rules without names grant each triple, by the resource or by a pattern; where the chart lists no pattern for half a subresource, if and only if those rules leave nothing missing |
| OperatorRbac.NamesAreIgnored | scripts/check-operator-rbac-covers.py:62-69 | the check can be clean where not all requests carry over |
| OperatorRbac.PatternMakesUp | scripts/check-operator-rbac-covers.py:57-69 | a pattern without names that spans the resource makes up for a rule with a name, although the rules without names then leave a gap |
| ResourcePatterns.OnlySpansReach | scripts/check-operator-rbac-covers.py:57-59 | exactly the listed resources that span a wanted one reach a request for it whose open half is filled with something unlisted |
| OperatorRbac.CoverageIsTransitive | scripts/check-operator-rbac-covers.py:62-69 | coverage composes |
| OperatorRbac.CoverageOfItself | scripts/check-operator-rbac-covers.py:62-69 | a role covers itself exactly when its rules without apiGroups are covered under the core group, which the wanted side assumes |
| OperatorRbac.ClusterRules | scripts/check-operator-rbac-covers.py:45-54 | exactly the rules of ClusterRoles that a ClusterRoleBinding gives a ServiceAccount of that name |
| OperatorRbac.GivenIsCounted | scripts/check-operator-rbac-covers.py:45-54 | what a ClusterRoleBinding of a rendered ClusterRole allows an account is among the rules counted for it, where nothing is aggregated |
| OperatorRbac.CleanCheckAuthorizes | scripts/check-operator-rbac-covers.py:45-69 | from the documents on: a clean check means the installed bindings authorize everything the operator's role does |
| KubectlArgv.KubectlFlagsAreWellShaped | scripts/check-kubectl-rbac.py:48-61 | the two flag tables are disjoint, every flag is dashed and none holds `=` |
| KubectlArgv.ReadPrinted | scripts/check-kubectl-rbac.py:72-97 | printing positionals, `flag value`, `--flag=value`, switches and `-- rest` and parsing gives back the same items, for any of them |
| KubectlArgv.PrintedRead | scripts/check-kubectl-rbac.py:72-97 | whatever parses prints back to the very argv it came from |
| KubectlArgv.ErrorsCarry | scripts/check-kubectl-rbac.py:72-97 | an error behind any well-formed front is the same error |
| KubectlArgv.UnlistedFlagRaises | scripts/check-kubectl-rbac.py:90-93 | an unlisted flag raises wherever it stands |
| KubectlArgv.UnlistedJoinedFlagRaises | scripts/check-kubectl-rbac.py:82-86 | so does an unlisted `--flag=value` |
| KubectlArgv.FlagMapHolds | scripts/check-kubectl-rbac.py:72-97 | each flag's value list holds its values in order, and an unused flag has none |
| KubectlMeanings.CommandIsFirst | scripts/check-kubectl-rbac.py:156-159 | whatever flags stand in front, the first plain word is the subcommand, and the plain words behind it are its arguments, what follows `--` left out |
| KubectlMeanings.ItemsInTurn | scripts/check-kubectl-rbac.py:72-97 | positionals and values are read item by item, left to right |
| KubectlMeanings.OneItem | scripts/check-kubectl-rbac.py:78-95 | what a single item gives: a word, a value in either spelling, or an empty value for a switch, and nothing for any other flag |
| KubectlMeanings.LastValueWins | scripts/check-kubectl-rbac.py:100-104 | of the spellings asked for, the first that is used decides, and its last value counts |
| KubectlMeanings.NoValueIff | scripts/check-kubectl-rbac.py:100-104 | there is no value exactly when no spelling is used |
| KubectlMeanings.NamespaceIs | scripts/check-kubectl-rbac.py:157-157 | the namespace is the last `-n`, else the last `--namespace`, else none |
| KubectlMeanings.KindsStandForPlurals | scripts/check-kubectl-rbac.py:107-111 | every word of the kind table stands for a resource whose own plural, in small letters, is in the table and stands for the same |
| KubectlMeanings.KindIsCaseless | scripts/check-kubectl-rbac.py:107-111 | a kind is known under every spelling of a word of the table in capitals and small letters, and under no other word |
| KubectlArgv.Parse | scripts/check-kubectl-rbac.py:72-97 | the index loop computes the items the round trip is about, grouped into positionals and flag values |
| KubectlRequests.SlashTargetsMean | scripts/check-kubectl-rbac.py:118-124 | `kind/name` arguments are read exactly when each kind is known, and then each gives its own kind and name, in order |
| KubectlRequests.SpellingsAgree | scripts/check-kubectl-rbac.py:114-127 | a kind with its names and the same names each under the kind and a slash read as the same targets, and fail alike |
| KubectlMeanings.TargetsAre | scripts/check-kubectl-rbac.py:114-127 | which argument lists are read at all, and exactly which kinds and names they then give |
| KubectlMeanings.GetAsks | scripts/check-kubectl-rbac.py:166-175 | a get that is read asks for a list per kind where no name or a selector is given, for a get of each name otherwise, for a watch exactly under one of the three watch flags, and for nothing else |
| KubectlMeanings.DeleteAsks | scripts/check-kubectl-rbac.py:176-185 | a delete asks to delete each named object, for deletecollection where a kind stands alone, for a watch exactly when it does not say `--wait=false`, and for nothing else |
| KubectlMeanings.ExecAsks | scripts/check-kubectl-rbac.py:186-192 | an exec reads the pod and opens its stream, the pod named with or without `pod/`, and fails exactly when it names none |
| KubectlMeanings.CreateAsks | scripts/check-kubectl-rbac.py:193-204 | a create of one of three shortcuts asks to create that kind without a name, or as a client dry run records the object under its name and asks for nothing; any other create fails |
| KubectlMeanings.ApplyAsks | scripts/check-kubectl-rbac.py:205-215 | an apply from stdin reads, creates and patches the recorded object, in its own namespace unless one is given, and fails exactly when nothing is recorded or it reads elsewhere |
| KubectlMeanings.EditAsks | scripts/check-kubectl-rbac.py:216-219 | annotate, label and patch read and patch each target, and nothing else |
| KubectlMeanings.RolloutAsks | scripts/check-kubectl-rbac.py:220-229 | rollout reads each target and patches it to restart or watches it for its status; any other action fails |
| KubectlMeanings.OthersAsk | scripts/check-kubectl-rbac.py:230-233 | version, config and auth ask for nothing, and any other subcommand fails |
| KubectlRequests.StepByRole | scripts/check-kubectl-rbac.py:151-234 | a dry-run create records an object and asks for nothing, a stdin apply consumes the recorded one, any other call leaves it |
| KubectlRequests.StepIgnoresPending | scripts/check-kubectl-rbac.py:151-234 | only a stdin apply depends on what is pending |
| KubectlLog.PipeOrder | scripts/check-kubectl-rbac.py:140-148 | the in-place swapping pass computes its declarative reading, errors included |
| KubectlLog.OrderedPermutes | scripts/check-kubectl-rbac.py:140-148 | the pass permutes the log, whatever it holds |
| KubectlLog.OrderedKeepsOthers | scripts/check-kubectl-rbac.py:140-148 | no call that is neither create nor apply moves |
| KubectlLog.OrderedIsPaired | scripts/check-kubectl-rbac.py:140-148 | the pass puts every create right before its own apply exactly when no pipe is followed at once by one whose create was logged first |
| KubectlLog.ApplyTakesLatestCreate | scripts/check-kubectl-rbac.py:151-234 | in any log that runs, each apply takes the latest create no other apply took |
| KubectlLog.PairedLogsRun | scripts/check-kubectl-rbac.py:140-234 | a log of pipes is accepted exactly when it has no such clash, and then every apply is judged on its own create; it is never accepted with a wrong pairing |
| KubectlLog.RunOneMore | scripts/check-kubectl-rbac.py:155-234 | a log that runs, and one more call: exactly that call's requests behind the others, judged on what the log left pending |
| KubectlLog.RunFails | scripts/check-kubectl-rbac.py:155-234 | a log that fails fails alike whatever calls follow |
| KubectlCheck.AllowedIsAuthorized | scripts/check-kubectl-rbac.py:262-285 | what the guard allows the authorizer allows |
| KubectlCheck.AuthorizedIsAllowed | scripts/check-kubectl-rbac.py:262-285 | conversely on rules without `pods/*` or `*/exec` patterns |
| KubectlCheck.AllowedGrows | scripts/check-kubectl-rbac.py:262-285 | more rules allow no less |
| KubectlCheck.StepsNameNoCollection | scripts/check-kubectl-rbac.py:151-234 | no derived request names an object of a list or create, as the converse needs |
| KubectlMeanings.ResourceSplits | scripts/check-kubectl-rbac.py:263-263 | the resource looked up is the plain one, or the one with its subresource behind a slash, and reads back as those two |
| KubectlCheck.BoundRules | scripts/check-kubectl-rbac.py:237-259 | exactly the rules of roles bound to the account, each with its scope |
| KubectlCheck.CheckCall | scripts/check-kubectl-rbac.py:288-314 | one call's findings are exactly its requests that no rule allows, each under its verb, resource, name, group and namespace |
| KubectlCheck.Check | scripts/check-kubectl-rbac.py:288-314 | the exact set of findings: the unbound account, the empty log, the call that fails, each denied request of the calls in front of it, or a log that asks for nothing; none exactly when a rule is bound, the log is non-empty and fully modelled, asks for something, and every request is permitted |
| KubectlCheck.GrantsStayInScope | scripts/check-kubectl-rbac.py:254-266 | for each binding: the guard keeps its grants within the scope it has when installed if and only if it is not a RoleBinding without a namespace whose rules grant anything |
| KubectlCheck.BindingIsHonestIff | scripts/check-kubectl-rbac.py:237-285 | for each binding: all the guard grants by it the API server grants by it if and only if it is neither such a RoleBinding nor a ClusterRoleBinding of a Role, with a rule that grants anything |
| KubectlCheck.OnlyBindingIsHonestIff | scripts/check-kubectl-rbac.py:237-285 | an account with one binding is permitted only what it is authorized for if and only if that binding is honest in this sense |
| KubectlCheck.PermittedIsAuthorized | scripts/check-kubectl-rbac.py:237-285 | where no binding leaks, a permitted request is authorized by the documents |
| KubectlCheck.AuthorizedIsPermitted | scripts/check-kubectl-rbac.py:237-285 | conversely where namespaces are written out, subjects are ServiceAccounts, and every ClusterRole bound is rendered and aggregates nothing |
| KubectlLosses.AllGrantedIff | scripts/check-kubectl-rbac.py:262-285 | in one namespace: all that a rule list authorizes is granted by the credited rules if and only if each of its triples is credited, under each name a request can carry |
| KubectlLosses.BindingLosesNothingIff | scripts/check-kubectl-rbac.py:237-285 | for each binding: all it authorizes the account for is granted by it if and only if each triple of the rules it gives, aggregation, built-in roles and groups followed, is credited |
| KubectlLosses.CreditedIsPermitted | scripts/check-kubectl-rbac.py:237-285 | so where every binding is credited in full, an authorized request is permitted |
| KubectlLosses.BuiltinIsLost | scripts/check-kubectl-rbac.py:237-259 | a binding of a built-in ClusterRole authorizes every request and is credited with none |
| KubectlLosses.AggregatedIsLost | scripts/check-kubectl-rbac.py:237-259 | so is what an aggregated ClusterRole takes from another |
| JwtEdge.AuditRules | scripts/check-edge-jwt-payload-unforgeable.py:165-171 | the exact findings of the rule part: no rules, each empty part of a rule's requirement at its own place, or a last rule that does not match every path; none exactly when the rules are clean |
| JwtEdge.AuditProviders | scripts/check-edge-jwt-payload-unforgeable.py:152-160 | the exact findings of the provider part, none exactly when there is a provider and each forwards its payload into the trusted header |
| JwtEdge.AuditHost | scripts/check-edge-jwt-payload-unforgeable.py:172-180 | the exact findings for one virtual host: itself, and each of its routes, where it overrides jwt_authn and is not sealed |
| JwtEdge.AuditManager | scripts/check-edge-jwt-payload-unforgeable.py:135-183 | the exact findings for a connection manager, and none exactly when its filters, providers, rules and overrides are clean |
| JwtEdge.AuditHosts | scripts/check-edge-jwt-payload-unforgeable.py:172-180 | and over all virtual hosts, each under its own number |
| JwtEdge.FindingsAre | scripts/check-edge-jwt-payload-unforgeable.py:113-125 | the findings of a requirement are exactly its empty parts, each at the path of groups that leads to it; an allow_missing is none |
| JwtEdge.NoFindingsIff | scripts/check-edge-jwt-payload-unforgeable.py:113-125 | there is none if and only if no step into groups reaches an empty requirement or a group without members |
| JwtEdge.SealedIff | scripts/check-edge-jwt-payload-unforgeable.py:128-132 | a scope counts as sealed exactly when it has routes, each answers by itself, and none of them could still forward a request or meet ext_authz |
| JwtEdge.VerifyForgesNothing | scripts/check-edge-jwt-payload-unforgeable.py:9-33 | no verifier turns a safe header into a client's |
| JwtEdge.FirstRuleDecides | scripts/check-edge-jwt-payload-unforgeable.py:9-33 | the first rule that matches a path decides which requirement it meets, and a path no rule matches meets none |
| JwtEdge.CleanRequirementStrips | scripts/check-edge-jwt-payload-unforgeable.py:113-125 | any nesting of requires_any and requires_all without an empty requirement leaves the header absent or written by a verifier whenever it passes |
| JwtEdge.CleanIsUnforgeable | scripts/check-edge-jwt-payload-unforgeable.py:135-183 | with a clean audit and no route re-enabling ext_authz, no observer on any path sees the header as a client wrote it |
| JwtEdge.BareVerify | scripts/check-edge-jwt-payload-unforgeable.py:9-33 | a requirement that meets no provider and reads no token has one outcome for every token and leaves all headers alone |
| JwtEdge.TouchedIsSafe | scripts/check-edge-jwt-payload-unforgeable.py:113-125 | any other leaves the header absent or written by a verifier, passed or failed |
| JwtEdge.BareChainLeaks | scripts/check-edge-jwt-payload-unforgeable.py:128-132 | an override that every jwt_authn filter in front of ext_authz passes untouched shows ext_authz the client's own header |
| JwtEdge.CleanIsUnforgeableIff | scripts/check-edge-jwt-payload-unforgeable.py:128-183 | for any overrides, skips and requirements alike: a clean config is unforgeable if and only if no route that re-enables ext_authz inside an overriding host has an override that passes a request untouched |
| JwtEdge.BareOverrides | scripts/check-edge-jwt-payload-unforgeable.py:113-132 | every skip is such an override, and no requirement without an empty part is |
| ZitadelRoutes.Play | scripts/check-edge-zitadel-routes.py:228-237 | the loop decides as the declarative router does, blind spots included |
| ZitadelRoutes.ModelledAnswers | scripts/check-edge-zitadel-routes.py:179-225 | a match whose every field is modelled always gets an answer |
| ZitadelRoutes.HeaderMatchesIs | scripts/check-edge-zitadel-routes.py:179-203 | a modelled header test answers whether the header passes it, turned around under invert; an unmodelled string test gives up only where the header is present |
| ZitadelRoutes.TakesIff | scripts/check-edge-zitadel-routes.py:206-225 | a modelled route takes a request exactly when its path test takes the path and every header test passes, inverted or not |
| ZitadelRoutes.PathComesFirst | scripts/check-edge-zitadel-routes.py:206-225 | an unknown field or a match without a path test is not judged, a path not taken is a no whatever the headers, and otherwise the headers decide |
| ZitadelRoutes.FirstHeaderAnswers | scripts/check-edge-zitadel-routes.py:225-225 | headers are looked at in turn: the first that does not pass answers for all, with no or with an unmodelled test |
| ZitadelRoutes.FirstAnswerDecides | scripts/check-edge-zitadel-routes.py:228-237 | for any routes, modelled or not: the first whose match is not a plain no decides, with its action or blindly, and none exactly when all are |
| ZitadelRoutes.FirstDecides | scripts/check-edge-zitadel-routes.py:228-237 | the outcome is the decision of the lowest route that takes the request, and `none` exactly when none does |
| ZitadelRoutes.ReorderingKeepsOutcomes | scripts/check-edge-zitadel-routes.py:228-237 | a reordering that keeps the order of routes that can meet on a request keeps every outcome |
| ZitadelRoutes.NeighboursSwapIff | scripts/check-edge-zitadel-routes.py:228-237 | two neighbours may swap if and only if no request reaches both with different decisions |
| ZitadelAllowlist.AuditAllowlist | scripts/check-edge-zitadel-routes.py:251-320 | the findings are exactly the unlisted routes to Zitadel, those named for the admin surface, and the listed keys no route produces |
| ZitadelAllowlist.KeysTellApart | scripts/check-edge-zitadel-routes.py:240-246 | two routes have one key exactly when they stand in one host of one config and test the path alike |
| ZitadelAllowlist.NamesAdminIff | scripts/check-edge-zitadel-routes.py:272-276 | a literal test is named for the admin surface exactly when every path it takes lies under an admin prefix; an expression never is |
| ZitadelAllowlist.ReachedThroughListed | scripts/check-edge-zitadel-routes.py:262-276 | behind a clean list a request reaches Zitadel only through the first route that takes it, and that route is listed and names no admin path |
| ZitadelAllowlist.TakesUnderIff | scripts/check-edge-zitadel-routes.py:268-276 | a literal test that is not named for the admin surface takes a path under an admin prefix if and only if it is a prefix that stops short of it, for a separated prefix with its slash |
| ZitadelAllowlist.OpensUnderIff | scripts/check-edge-zitadel-routes.py:268-276 | any test not named for the admin surface takes a path under an admin prefix if and only if it is a prefix that stops short of it or an expression that matches a path under it |
| ZitadelAllowlist.ReachedIff | scripts/check-edge-zitadel-routes.py:262-276 | and for every such test, literal or an expression, and no other, a clean list lets a request under that admin prefix reach Zitadel |
| ZitadelAllowlist.AdminStaysShut | scripts/check-edge-zitadel-routes.py:228-276 | behind a clean list without such tests no request under the admin prefix reaches Zitadel, whatever routes stand around |
| RateLimits.LeavesAreReached | scripts/check-edge-rate-limits.py:146-150 | the recursive walk finds exactly the leaves of the descriptor tree, at any depth |
| RateLimits.HighestRate | scripts/check-edge-rate-limits.py:152-163 | the quota kept is the highest rate any leaf states, and none when none states one |
| RateLimits.LeafRateIs | scripts/check-edge-rate-limits.py:156-161 | a leaf states a rate exactly with a limit, a number that is not zero and a known unit, and the rate times the unit is that number |
| RateLimits.UnitsAreTimes | scripts/check-edge-rate-limits.py:82-82 | the four units and no other, each a multiple of the one below |
| RateLimits.FuseIsRate | scripts/check-edge-rate-limits.py:85-94 | the fuse in front of a route is that of its own bucket, else of the inherited one: over its interval it lets through the tokens it states, the refill where it states one and the burst otherwise, and it is zero where it states none or has no interval |
| RateLimits.FirstRouteKeyIsSent | scripts/check-edge-rate-limits.py:133-139 | the first action with a route key, group by group, names the quota |
| RateLimits.NoRouteKeyIsSent | scripts/check-edge-rate-limits.py:133-139 | and without one no quota is named |
| RateLimits.QuotaRates | scripts/check-edge-rate-limits.py:142-164 | each route value maps to the quota of its entry |
| RateLimits.LastEntryCounts | scripts/check-edge-rate-limits.py:152-163 | of several rated entries for one route value the last one counts |
| RateLimits.JudgeQuotas | scripts/check-edge-rate-limits.py:205-224 | a route is reported exactly when some leaf of its entry states a rate at or above the non-zero fuse in front of it |
| RateLimits.AsFractions | scripts/check-edge-rate-limits.py:74-94 | the comparison is the cross-multiplied one over exact fractions |
| RateLimits.KeptIsTightestIff | scripts/check-edge-rate-limits.py:142-164 | the rate kept is the tightest one if and only if all the rates stated are equal |
| RateLimits.ReportedWhileApplyingIff | scripts/check-edge-rate-limits.py:205-224 | a route is reported while a leaf of its quota does apply if and only if the fuse lies above the lowest and not above the highest rate |
| RateLimits.LoosestLeafCounts | scripts/check-edge-rate-limits.py:142-164 | that happens |
| ShellLexer.StripComment | scripts/check-no-secret-argv.py:140-155 | the quote loop cuts at the first `#` that starts a comment outside quotes |
| ShellLexer.ReadLogicalLines | scripts/check-no-secret-argv.py:158-171 | the buffering loop joins continued lines under the number of the first |
| ShellLexer.ReadWords | scripts/check-no-secret-argv.py:174-215 | the character loop splits words by quotes, blanks, separators and the nesting of `$(` |
| ShellLexer.ReadSubstitutions | scripts/check-no-secret-argv.py:218-233 | the scan returns each outermost `$(...)` body |
| ShellTrees.ClosesFirst | scripts/check-no-secret-argv.py:225-231 | the scan from `$(` stops behind the first parenthesis that closes more than was opened, and runs to the end where none does |
| ShellTrees.FirstSubstitution | scripts/check-no-secret-argv.py:218-233 | in any text: without `$(` nothing is found; otherwise the first one found is the balanced text up to its own parenthesis, and the search goes on behind it, or, where none closes it, the rest short of the last character |
| ShellTrees.SubstitutionsOfPrint | scripts/check-no-secret-argv.py:218-233 | text with substitutions nested to any depth, printed and searched: exactly the outermost bodies come back, whole and in order |
| ShellLexer.LogicalLinesAreShort | scripts/check-no-secret-argv.py:158-171 | no logical line is longer than the text |
| ShellLexer.WordsAreShort | scripts/check-no-secret-argv.py:174-215 | words hold no more characters than were read |
| ShellLexer.SubstitutionsAreShort | scripts/check-no-secret-argv.py:218-233 | a substitution's body is at least two characters shorter than the code |
| ShellLexer.QuotingRoundTrip | scripts/check-no-secret-argv.py:140-215 | single-quoted words joined by blanks are one logical line without comment and split back into exactly those words, empty ones included |
| ShellWords.WordsOfPrint | scripts/check-no-secret-argv.py:174-215 | a command line of plain, single-quoted and double-quoted pieces, nested substitutions, blanks and separators, printed and read: exactly its words come back, separators as words of their own |
| ShellLines.CommentIsCut | scripts/check-no-secret-argv.py:140-155 | behind any mix of plain text, quotes and substitutions that ends in a blank or is empty, `#` and what follows it is cut, unless it is `#{` |
| ShellLines.CodeIsKept | scripts/check-no-secret-argv.py:140-155 | and without one, nothing is cut, whatever `#` stands inside quotes, substitutions or words |
| ShellLines.ContinuesIff | scripts/check-no-secret-argv.py:163-164 | a line goes on exactly when, trailing white space aside, it ends in one backslash that no other stands in front of |
| ShellLines.LinesOfPrint | scripts/check-no-secret-argv.py:158-171 | logical lines printed over as many physical lines as they like come back joined by blanks, without their comments, each under the number of its first line |
| ShellLines.OpenLinesOfPrint | scripts/check-no-secret-argv.py:164-170 | so does a text whose last line still goes on |
| SecretArgv.InnerIsShorter | scripts/check-no-secret-argv.py:236-248 | every text the scanner recurses into is strictly shorter, so the recursion ends on every string |
| SecretArgv.ScanLine | scripts/check-no-secret-argv.py:236-248 | the recursive scanner computes its specification, within the length it started from |
| SecretArgv.FindsExactlyNested | scripts/check-no-secret-argv.py:236-248 | a label is found exactly when some text nested in the line, to any depth, carries it |
| ShellWords.LabelsComeFromInside | scripts/check-no-secret-argv.py:236-248 | the labels of a line are exactly its own, those of its outermost substitutions, and those of the lines of a script that its words hand to a shell |
| ShellTrees.LabelsInsideAreFound | scripts/check-no-secret-argv.py:236-248 | a label of a text nested in substitutions, at any depth, is among the labels of the line that holds it |
| ShellWords.ScriptsIff | scripts/check-no-secret-argv.py:241-245 | the scripts scanned are exactly the logical lines of the word behind `-c`, `-ec` or `-euc` behind a shell's name |
| ShellWords.IsShellIff | scripts/check-no-secret-argv.py:244-244 | a shell's name is sh or bash, alone or behind a directory, with at most a line break behind it |
| SecretArgv.FindingsAreDistinct | scripts/check-no-secret-argv.py:236-248 | each label once |
| SecretArgv.Taint | scripts/check-no-secret-argv.py:124-137 | three passes over the assignments |
| SecretArgv.TaintedIsReached | scripts/check-no-secret-argv.py:124-137 | what is tainted lies in every set that holds all a secret reaches |
| TaintChains.TaintedIsTwoTurns | scripts/check-no-secret-argv.py:124-137 | a variable is tainted if and only if some chain of assignments leads to it from a source, each expanding the one before, with at most two steps to the same or an earlier line |
| TaintChains.NothingIsLostIff | scripts/check-no-secret-argv.py:124-137 | the set holds all a secret reaches if and only if each reached variable has such a chain |
| SecretArgv.FourStepsUpAreLost | scripts/check-no-secret-argv.py:124-137 | a chain of assignments written in reverse can outrun the three passes |
| SecretArgv.Scanner.ScanText | scripts/check-no-secret-argv.py:361-369 | the global set is refilled from this text alone, and the findings are exactly the labels of its logical lines |
| TemplateText.ReadActions | scripts/check-orphan-templates.py:50-57 | the scan finds each action from its braces to the next closing pair |
| TemplateText.ActionsOfPrint | scripts/check-orphan-templates.py:50-57 | on a printed template the scan finds exactly the tree's actions, where the tree has them |
| ActionWords.NameInIff | scripts/check-orphan-templates.py:44-44 | an action names a define exactly when, with or without a dash, it reads `define`, white space, and a quoted name that is not empty: then it names exactly the text between the quotes |
| ActionWords.KeywordKindIs | scripts/check-helper-docs.py:56-57 | the keyword parser takes an action for an opener exactly when one of five words stands in front of a word's end, and for a closer exactly when it holds `end` and white space alone |
| ActionWords.HeadKindIs | scripts/check-orphan-templates.py:64-69 | the first-word parser goes by the same words with white space or nothing behind them, so an action that goes on behind `end` is a closer to it too |
| TemplateComments.CommentIsWhole | scripts/check-helper-docs.py:54-54 | a comment without inner closing braces is matched from end to end wherever it stands |
| CommentTexts.CommentEndIff | scripts/check-helper-docs.py:54-54 | in any text a comment matched at a place ends exactly where the first closing of a comment behind its opening ends, dashes and white space included |
| TemplateComments.TreeComments | scripts/check-helper-docs.py:82-82 | the comments found in a printed template are the tree's own |
| TemplateComments.ReplaceOfPrint | scripts/check-orphan-templates.py:43-43 | replacing every comment of a printed template prints the tree with its comments replaced |
| OrphanTemplates.FindEnd | scripts/check-orphan-templates.py:62-72 | the inner loop finds the action that closes the define |
| OrphanTemplates.DefineBodies | scripts/check-orphan-templates.py:54-73 | the two nested loops compute the bodies the laws are about |
| OrphanTemplates.EndPasses | scripts/check-orphan-templates.py:63-69 | a balanced piece leaves the nesting depth as it found it |
| OrphanTemplates.BodiesOfPrint | scripts/check-orphan-templates.py:54-73 | where first words read the tree, each define comes back once, in order, with exactly the text up to its own `end` |
| FirstWords.HeadIsLower | scripts/check-orphan-templates.py:64-69 | against the keyword parser the first-word parser can only miss openers and take other actions for an `end` |
| FirstWords.TreePassage | scripts/check-orphan-templates.py:63-72 | so the scan for a define's `end` stops inside its body or leaves it no deeper than it came, and as deep exactly when every block in it is read |
| FirstWords.BodiesOfPrintIff | scripts/check-orphan-templates.py:54-73 | on every balanced template each define is found once, under its name, and every body is whole if and only if, strictly inside a define, each opener's first word is a keyword and no plain action's first word is `end` |
| FirstWords.ParsersAgreeIff | scripts/check-helper-docs.py:66-117 | the two parsers: one returns every define with its body, the other records exactly those of them at depth 0, in the same order; names always agree, bodies exactly under that condition |
| OrphanTemplates.UnreadOpenerCutsBody | scripts/check-orphan-templates.py:64-71 | one missed opener: the define loses what stands behind the inner `end` |
| InertTemplates.InertIffIdle | scripts/check-orphan-templates.py:76-78 | a body is inert if and only if its tree holds nothing but comments and blank text |
| HelperDocs.FindComments | scripts/check-helper-docs.py:82-82 | the scanning loop collects the matches |
| HelperDocs.SpansStandApart | scripts/check-helper-docs.py:82-82 | the matches stand front to back and apart, each is one match whole, and no start of a match outside them is passed over |
| HelperDocs.MaskComments | scripts/check-helper-docs.py:82-88 | masking in place blanks exactly the comments and keeps every newline and position |
| HelperDocs.MaskShows | scripts/check-helper-docs.py:82-88 | every character of the masked text: a blank inside a comment, itself if it is a newline or outside |
| HelperDocs.LineOfCounts | scripts/check-helper-docs.py:74-80 | the line of a place is the number of newlines in front of it |
| HelperDocs.EventsDecide | scripts/check-helper-docs.py:91-93 | actions of white space alone change nothing |
| HelperDocs.RunPasses | scripts/check-helper-docs.py:96-115 | what is nested neither ends nor starts a recorded define |
| HelperDocs.ItemsOfPrint | scripts/check-helper-docs.py:66-117 | on every balanced template exactly the defines at nesting depth 0 are recorded, in order, on their own lines |
| HelperEvents.Collect | scripts/check-helper-docs.py:96-115 | the event loop over depth and pending define computes the recorded entries |
| HelperEvents.Parse | scripts/check-helper-docs.py:66-117 | the comments and defines of a source text, from its masked copy, both lists sorted as the code sorts them |
| HelperEvents.DefinesByActions | scripts/check-helper-docs.py:96-115 | comments decide nothing about the recorded defines |
| HelperEvents.SortedActions | scripts/check-helper-docs.py:90-94 | the stable sort by lines moves no action past another |
| HelperEvents.SortKeepsDefined | scripts/check-helper-docs.py:116-116 | the final sort moves no define past another |
| HelperEvents.DefinesOfPrint | scripts/check-helper-docs.py:66-117 | whatever comments stand where, the defines recorded for a balanced template are those at nesting depth 0, in order, on their own lines |
| HelperOrder.SpansOfPrint | scripts/check-helper-docs.py:82-82 | the comments found in a printed template are the tree's, in order |
| EntryPlaces.SortOnLine | scripts/check-helper-docs.py:116-116 | the final sort keeps the order within each line |
| EntryPlaces.SortedIsIff | scripts/check-helper-docs.py:116-116 | with the same defines, sorting gives a list in line order if and only if the comments have the same places among the defines on every line |
| EntryPlaces.SortIntoMerges | scripts/check-helper-docs.py:94-94 | sorting comments into the actions puts each in front of the first action that does not sort before it |
| HelperReach.MergeRecords | scripts/check-helper-docs.py:96-115 | the loop over the sorted events, comment by comment: recorded exactly when the actions sorted before it leave no block open, behind the defines they complete |
| HelperReach.StopIsCut | scripts/check-helper-docs.py:90-94 | an action sorts before a comment exactly when it stands in front of it and, for a comment on one line, starts on an earlier line |
| HelperReach.TopReach | scripts/check-helper-docs.py:96-115 | on a balanced template the depth is 0 there exactly when no block at the top starts before and ends behind |
| HelperPlaces.CommentRecordedIff | scripts/check-helper-docs.py:90-101 | a comment is recorded if and only if no block at the top is open where it stands or, for a comment on one line, across the start of that line |
| HelperPlaces.EntriesOfPrintIff | scripts/check-helper-docs.py:66-117 | exactly the comments and defines that no block holds are recorded, in the order of the text, if and only if each comment on one line is in a block exactly when one is open across the start of its line and, when it is in none, has no define of its line in front of it |
| HelperPlaces.ParseOfPrintIff | scripts/check-helper-docs.py:66-117 | and so with the line numbers the parser itself counts |
| HelperTexts.CommentBehindEndIsLost | scripts/check-helper-docs.py:90-101 | a comment behind the `end` of a define of two lines is at the top and not recorded |
| HelperTexts.CommentBehindOpenerIsRecorded | scripts/check-helper-docs.py:90-101 | a comment behind the opener of such a define is inside it and recorded at the top |
| HelperTexts.BothTextsGoWrong | scripts/check-helper-docs.py:66-117 | both, for two texts written out, with the parser's own line numbers |
| HelperDocs.UnspacedIfCutsBody | scripts/check-orphan-templates.py:64-71 | they differ on `{{if(x)}}`: the keyword parser counts it, the first-word parser does not |
| HelperDocs.ActionsAreInLineOrder | scripts/check-helper-docs.py:94-94 | the stable sort by lines moves no action |
| HelperDocs.TopItemsAreInLineOrder | scripts/check-helper-docs.py:116-116 | nor does the final sort move a recorded define |
| PipefailClosure.SourcedByPipefail | scripts/check-no-pipe-grep-q.py:100-114 | the fixpoint loop ends with exactly the reached names, the least set closed under sourcing |
| PipefailClosure.OnePass | scripts/check-no-pipe-grep-q.py:105-113 | one round only adds reached names, and adds none exactly when the set is closed |
| PipefailClosure.ReachedIsLeast | scripts/check-no-pipe-grep-q.py:100-114 | every closed set holds every reached name |
| PipefailClosure.ReachedInAnyOrder | scripts/check-no-pipe-grep-q.py:100-114 | the order of the scripts does not matter |
| PipefailClosure.ScanTexts | scripts/check-no-pipe-grep-q.py:117-124 | a line is reported exactly in scripts that set pipefail or are reached from one |
| PipefailClosure.BaseNameIs | scripts/check-no-pipe-grep-q.py:107-122 | a script's name is what stands behind its last slash |
| ChartStamp.SortedAlike | scripts/check-chart-deps-fresh.py:101-101 | two listings sort alike exactly when they hold the same paths, each as often |
| ChartStamp.TextLeIs | scripts/check-chart-deps-fresh.py:101-101 | the order of the listing is the dictionary order of its characters |
| ChartStamp.EncodeIsInjective | scripts/check-chart-deps-fresh.py:101-106 | the hashed encoding of (path, hash) entries is uniquely decodable |
| ChartStamp.DigestSources | scripts/check-chart-deps-fresh.py:98-107 | the loop hashes the sorted closure, or fails on an unreadable path |
| ChartStamp.DigestIsSources | scripts/check-chart-deps-fresh.py:98-107 | without a collision among the strings hashed, two trees have one digest if and only if their closures agree |
| ChartStamp.StampReadsBack | scripts/check-chart-deps-fresh.py:155-176 | what is stamped is read back |
| ChartStamp.NoneMissing | scripts/check-chart-deps-fresh.py:140-147 | no tarball is missing exactly when each declared dependency has one |
| ChartStamp.MissingAre | scripts/check-chart-deps-fresh.py:143-147 | the missing ones are exactly the declared dependencies without a tarball |
| ChartStamp.TarballOfIff | scripts/check-chart-deps-fresh.py:146-146 | a tarball of a dependency is its name, a dash, any version and the suffix, and nothing else |
| ChartStamp.Checkout.WriteStamp | scripts/check-chart-deps-fresh.py:155-166 | the stamp is written exactly when every tarball is there and the closure is readable, and is untouched otherwise |
| ChartStamp.Checkout.Verify | scripts/check-chart-deps-fresh.py:179-202 | the verdict or error of the current tree against the current stamp |
| ChartStamp.VerdictIs | scripts/check-chart-deps-fresh.py:179-202 | each verdict with its exact case: never built without a recorded digest, a tarball gone where one is missing, fresh or changed as the sources now hash, an error exactly where they cannot be read |
| ChartStamp.StampReadsFirst | scripts/check-chart-deps-fresh.py:169-176 | the recorded digest is what stands behind the key on the first line that starts with it, white space cut off, and none without such a line |
| ChartStamp.UnstampedIsNeverBuilt | scripts/check-chart-deps-fresh.py:185-187 | a missing stamp and a stamp without that key both read as never built |
| ChartStamp.FreshIffUnchanged | scripts/check-chart-deps-fresh.py:155-202 | after a stamp and any edits, the verdict is fresh if and only if the closure is unchanged and each dependency now declared is packaged |
| ChartStamp.StaleButFreshCollides | scripts/check-chart-deps-fresh.py:179-202 | a fresh verdict on changed sources exhibits a hash collision |
| ChartStamp.SharedTarballIff | scripts/check-chart-deps-fresh.py:140-147 | one tarball can count for two dependencies if and only if one name, followed by a dash, starts the other so followed |
| ChartStamp.NoneMissingMeansOwnIff | scripts/check-chart-deps-fresh.py:140-147 | in every tree with nothing missing each dependency has a tarball of its own if and only if no two declared names overlap so |
| PinText.RepoIsKey | scripts/bump-image-digest.py:109-121 | a repository line is a `repository` key at its own indent |
| PinLines.KeyOfIff | scripts/bump-image-digest.py:121-125 | a line is read as a key exactly when it is white space, a name and a colon, at the indent and under the name it then has |
| PinLines.RepoOfIff | scripts/bump-image-digest.py:109-115 | a line is read as naming an image exactly when it is `repository:` and a path in the registry, with or without quotes, at the indent and for the image it then has |
| PinLines.PinLineIff | scripts/bump-image-digest.py:109-114 | it starts a pin exactly when it is such a line for an image that is no mirror |
| PinLines.PassesIff | scripts/bump-image-digest.py:119-131 | a line belongs to the mapping exactly when it is blank, a comment, or one of four keys no less indented, a repository at its own indent excepted |
| PinLines.FindIsFirst | scripts/bump-image-digest.py:160-165 | the value read is that of the first place on the line where the key, white space and a quoted text stand |
| PinLines.NoMatchNoValue | scripts/bump-image-digest.py:160-165 | and there is none without such a place |
| PinLines.SubAtFirst | scripts/bump-image-digest.py:170-176 | substituting replaces that value and goes on behind its closing quote |
| PinText.ReplaceFirst | scripts/bump-image-digest.py:200-200 | replacing swaps the first place the text stands at and goes on behind it |
| PinText.SubTwice | scripts/bump-image-digest.py:170-176 | substituting a key's quoted values twice is substituting once |
| PinText.FindAfterSub | scripts/bump-image-digest.py:164-176 | after it, the value read is the one written |
| PinText.FindAfterReplace | scripts/bump-image-digest.py:186-200 | a quoted value that does not stand earlier on the line is read back as what it was replaced with |
| PinText.SubKeepsKey | scripts/bump-image-digest.py:170-176 | substituting keeps the key and indent of the line |
| PinText.ReplaceKeepsKey | scripts/bump-image-digest.py:200-200 | so does replacing |
| Pins.ScanBlock | scripts/bump-image-digest.py:117-135 | the scan finds the first tag and digest key of the mapping, and stops where the mapping ends |
| Pins.FindPins | scripts/bump-image-digest.py:98-137 | one pin per first-party repository line, mirrors aside, top to bottom |
| Pins.FirstKeyIs | scripts/bump-image-digest.py:117-135 | a key is owned exactly when it is the first of its name and every line between belongs to the mapping |
| Pins.PinsOwnApart | scripts/bump-image-digest.py:98-137 | no line has two owners, and a pin's own two lines differ |
| Pins.PinsAreScanned | scripts/bump-image-digest.py:98-137 | the pins are those of the repository lines, each once, in rising order |
| Pins.EveryMappingIsPinned | scripts/bump-image-digest.py:108-137 | and no repository line is passed over |
| Pins.PinOwnsItsKeys | scripts/bump-image-digest.py:115-136 | what a pin holds: its line, its image without the registry, and the first tag and the first digest key of its own mapping |
| Pins.PinsOfImageAreApart | scripts/bump-image-digest.py:358-358 | the pins of one image in one file own different lines |
| BumpImage.RewriteSeparate | scripts/bump-image-digest.py:167-180 | the separate-key branch writes the digest line and, with a ref, the tag line, and reports exactly whether one changed |
| BumpImage.RewriteCombined | scripts/bump-image-digest.py:182-202 | the combined branch rewrites a digest-carrying tag and refuses a bare one |
| BumpImage.RewritePin | scripts/bump-image-digest.py:140-202 | in place: the pin's own lines get their new text, every other line stays, and the result says whether the pin was stale |
| BumpImage.StaleIffChanged | scripts/bump-image-digest.py:140-202 | a change is reported exactly when the text changes |
| BumpRefs.ShapeIs | scripts/bump-image-digest.py:152-193 | which lines make a pin one of separate keys, of a combined tag, or of a bare one |
| BumpRefs.RenewedIs | scripts/bump-image-digest.py:190-192 | a combined value keeps what stands in front of its first `@` unless a ref is given, and gets the digest behind it |
| BumpRefs.RewriteRepins | scripts/bump-image-digest.py:140-202 | what a pin's two lines read as after a rewrite, in terms of what they read as before: the digest, behind the tag's own ref or the one given, or in its own key with the tag renewed only by a ref, and a bare tag untouched |
| BumpRefs.RewrittenIsRepinned | scripts/bump-image-digest.py:140-202 | and so in the file, in place |
| BumpImage.RewriteTwice | scripts/bump-image-digest.py:140-202 | a pin whose value is written where it was read, and whose ref is written safely, is rewritten once: the second rewrite is a no-op |
| BumpImage.SeparateTwiceIff | scripts/bump-image-digest.py:167-180 | with separate keys the rewrite is idempotent if and only if it does not write a ref with `@` beside an unquoted digest |
| BumpImage.UnsafeWriteDrifts | scripts/bump-image-digest.py:167-201 | otherwise the second rewrite appends the digest to the tag the first one wrote |
| TagReplace.ReplacedReads | scripts/bump-image-digest.py:186-200 | what a line reads as once its quoted value is replaced wherever it stands: the new value if the replacement, left to right, comes to the place it was read from, else what its closing quote then opens |
| BumpImage.CombinedTwiceIff | scripts/bump-image-digest.py:152-202 | for every tag that carries its digest, beside a digest key that is missing, blank or without quotes: the second rewrite changes nothing if and only if there was nothing to renew, the value was written where it was read, or what is read afterwards, judged on the line as it was, needs no rewrite: no renewal of a leftover with `@`, and for another no quoted digest key to fill and no ref to write |
| BumpImage.TagDrifts | scripts/bump-image-digest.py:186-201 | one line on which none of these holds |
| BumpImage.BlankDigestDrifts | scripts/bump-image-digest.py:152-201 | one line beside `digest: ""` whose leftover has no `@`: the second rewrite takes the pin for separate keys and writes the blank one |
| BumpImage.NotStaleIsCurrent | scripts/bump-image-digest.py:140-202 | a pin left alone carries the digest, and the ref when one is given |
| BumpImage.RewriteAny | scripts/bump-image-digest.py:362-362 | `any` stops at the first stale pin: at most one pin per run is rewritten |
| BumpImage.OneFewer | scripts/bump-image-digest.py:358-364 | a run over a file with stale pins makes exactly one of them current, and one without leaves the file alone |
| BumpRuns.RewriteKeepsViews | scripts/bump-image-digest.py:98-202 | a rewrite changes only its own lines, keeps their number, and leaves every line reading as the same key |
| BumpRuns.EndingsStay | scripts/bump-image-digest.py:326-330 | it keeps each line ending and adds no line break, so the file splits into the same lines again |
| BumpRuns.RunMakesOneCurrent | scripts/bump-image-digest.py:349-364 | one run keeps every pin at its lines and lowers the number of stale ones by exactly one, if there is any |
| BumpRuns.CleanRunCertifies | scripts/bump-image-digest.py:371-373 | a run that touches nothing certifies every quoted digest-carrying pin of the image |
| BumpRuns.RunsConverge | scripts/bump-image-digest.py:349-373 | as many runs as there are stale pins make all current, and no fewer do |
| BumpRefs.RunsRepin | scripts/bump-image-digest.py:349-373 | after those runs every pin of the image reads so: the new digest, behind the ref it had or the one given, and nothing else of it changed |
| BumpRefs.StaleIffRunChanges | scripts/bump-image-digest.py:358-364 | a file counts as stale exactly when a run changes it |
| BumpRefs.TouchedAreChanged | scripts/bump-image-digest.py:354-373 | the files listed as touched are exactly those that the run changes, in their order |
| BumpRuns.BumpOne | scripts/bump-image-digest.py:354-364 | one file: found, changed and the new lines |
| BumpRuns.CmdBump | scripts/bump-image-digest.py:349-373 | exit code 1 for a malformed digest with nothing touched, 2 when no file pins the image, else 0; each file bumped once, the touched ones listed in order |
| BumpRefs.IsDigestIff | scripts/bump-image-digest.py:79-79 | the digests let through are exactly `sha256:` and 64 small hexadecimal digits |
| BumpRefs.OfImageIs | scripts/bump-image-digest.py:358-358 | the pins bumped are exactly those found for the image, in their order |

## Left out

- helm, kubectl, curl, registry and file access, YAML and JSON parsing, every live check and self-test, message wording: documents, lines, file trees and logs are inputs, and a finding is a value.
- General regular expressions: only the line and token shapes the core functions read are modelled; the router's expressions and the tainting patterns are parameters.
- Unicode: `\w`, case folding and `str.lower` are those of ASCII text; white space is Python's.
- reader_targets, secret_uses, workloads, role_is_reader's callers, admission_guards and the judge of scripts/check-owner-credential-readers.py: lookups that feed the modelled evaluators; the workloads and accounts at stake are an input.
- OwnerReaders.CanRead: speaks of ServiceAccounts and all-account groups only, because the code passes over users; aggregation is followed one level, as the code does, where a cluster follows it to any depth; a subject is a pair where the code joins namespace and name by a slash.
- RenderedTakeovers.ReportsAreAuthority: leaves bind out, because two bindings can give it together (`TakeoverLaws.BindNeedsBothGrants`); the powers a bindable role would give are judged without bind, which is the one level the code descends.
- KubectlCheck.AuthorizedIsAllowed: asks for rules without subresource wildcards, because the guard has no form for them.
- KubectlCheck.AuthorizedIsPermitted: goes one way, in terms a chart author can look up; `KubectlLosses.BindingLosesNothingIff` is the exact condition for each binding, and over several bindings it is sufficient, because one can make up for what another loses (`KubectlLosses.CreditedIsPermitted`).
- KubectlCheck.BindingIsHonestIff: takes no two Roles of one name for installed in one namespace under two ways of writing it, since one would overwrite the other.
- JwtEdge.CleanIsUnforgeable: filters other than jwt_authn and ext_authz keep the header; provider names resolve, because Envoy rejects a config whose names do not.
- JwtEdge.CleanIsUnforgeableIff: where a second jwt_authn filter with other providers stands in front of ext_authz, the names in an override resolve in the first, because the audit judges that one alone and Envoy rejects names that do not resolve.
- ZitadelRoutes: the probe lists of scripts/check-edge-zitadel-routes.py and the normalisation flags are one-branch lookups over the modelled router.
- ZitadelAllowlist: a key is a config, a host and a path test, where the code joins them into one text; a match without a path test is one key a host, where the code lists its field names.
- RateLimits: rates are exact rationals, where the code rounds to floats; the enforcement checks of judge are one-branch lookups.
- SecretArgv: the catalogue of option patterns on one line is a parameter, a function from a text to its labels; scanning of rendered pod specs is left out.
- HelperEvents.Parse: a comment is recorded by where it stands, where the code keeps its text too; violations reads one recorded entry and the two behind it and is left out.
- TemplateText: an action's text ends at the first closing braces, so templates whose strings hold closing braces are outside the balanced trees, as they are outside what either parser reads.
- ChartStamp.DigestIsSources: asks that the strings hashed by the two trees do not collide, because no function to 64 digits is injective on all texts; the wording of the stamp's opening comment is left open.
- PipefailClosure: the grep patterns of a line are given with the script; which lines a script sources is an input.
- BumpRuns: resolving digests from the registry, listing, and joining and splitting a file's text are left out; `BumpRuns.EndingsStay` says why splitting again gives the same lines.
