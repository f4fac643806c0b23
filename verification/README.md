# CloudLearn: proofs about its small engines

CloudLearn simulates cloud providers. Most of it is catalogue data and calls to other programs, but some
small engines in it carry real promises: firewall compilers, tenant isolation, limiters, a concurrent
provisioner, exporters, an audit chain, codecs, the space lifecycle and a policy compiler. This project
models those engines in Dafny and proves what they promise, for all inputs and over all runs.

`dafny verify dfyconfig.toml` checks everything.

## Map

| files | what they model |
|---|---|
| `Iptables.dfy`, `GcpFirewall.dfy`, `AzureNsg.dfy` | iptables as an abstract machine, and the two compilers that target it |
| `SpaceProxy.dfy`, `RateLimiter.dfy`, `AuthLimiter.dfy` | isolation of tenants and providers, the token bucket, the sliding window |
| `Provisioner.dfy` | API callers and worker threads of one backend as atomic steps in any interleaving |
| `ValueText.dfy`, `JsonString.dfy`, `HclBlocks.dfy`, `TerraformNames.dfy` | the HCL and JSON printers with a reader that undoes them, and the naming loop of the Terraform exporter |
| `AuditChain.dfy` | the hash-chained security log |
| `StateCodec.dfy`, `StateStore.dfy`, `Firestore.dfy`, `Jwk.dfy`, `QueryFlatten.dfy` | codecs and the persisted state |
| `Spaces.dfy`, `Cedar.dfy` | the space lifecycle of the kernel, and the IAM to Cedar compiler |
| `Common.dfy`, `Decimal.dfy`, `Base64.dfy`, `PyValue.dfy` | shared definitions: options, texts, decimal numbers, base64, Python values |

Loops and objects of the source are methods and classes here, each proved against a specification function;
the theorems are about those functions. Firewall commands are a datatype rather than text. Numbers
are unbounded integers, as in Python; times and tokens are reals.

## What the proofs found

Where the code does not do what a reader would expect, the model follows the code, a lemma exhibits the
case, and the exact condition is proved.

- A GCP entry whose protocol is not tcp, udp, icmp or 1 matches every packet of its ranges, and only such an
  entry does (`GcpFirewall.UnknownProtocolMatchesAll`). Ranges that are no list stand for all addresses
  (`GcpFirewall.RangesAreEverywhereIff`).
- NSG rules of either direction filter packets of both: an inbound deny rule drops outgoing packets exactly
  where it applies to them (`AzureNsg.DirectionIsNotEnforced`). The script runs under `set -e`, so a rule
  that iptables refuses keeps all rules of lower precedence out (`AzureNsg.SoundRulesAreInstalled`).
- READY can stand over a halted container: a run from the start ends so (`Provisioner.StaleReadyIsReachable`).
  READY is true when it is written exactly if everything that took the container down after the probe
  was mended (`Provisioner.ReadyIsTrueIff`).
- An accepted provision request can be lost: a run of two requests from the start comes to rest with the
  state ABSENT over a running container (`Provisioner.LostRequestIsReachable`), so a caller that polls
  until READY or FAILED polls forever. `Provisioner.RequestIsLostIff` says exactly when that is so.
- The documentation of the provisioner (core/backend_provisioner.py:55-56) says that a second provision
  waits for the first. No request waits, and a worker that meets the lock leaves at once
  (`Provisioner.NobodyWaits`); a request starts a worker exactly when it read neither an in-flight state nor
  READY (`Provisioner.ProvisionDecides`).
- Of the rows of an intact audit log, deleted, reordered or repeated in any way, exactly the prefixes verify
  (`AuditChain.RearrangedVerifiesIff`): cutting entries off the end is the one deletion that goes unnoticed,
  where the module's documentation (core/security_audit.py:4-5) speaks of all.
- Zero, and no other key integer, is written as the empty text, where section 2 of RFC 7518 asks for `AA`
  (`Jwk.ZeroIsEmpty`).
- A state comes back exactly when no dict in it carries both the bytes tag and a `base64` key
  (`StateStore.WrittenIsReadIff`).
- HCL texts give a value back exactly when its keys have no blanks around them and nothing in it is written
  through `str` (`ValueText.RoundTripIff`); two values have one text exactly when they agree after that
  (`ValueText.PrintsAlikeIff`).
- Query parameters of clean keys never overwrite each other (`QueryFlatten.OneParameterPerLeaf`), and every
  key that is empty or has a dot in it loses a leaf in some tree (`QueryFlatten.BadKeyLosesALeaf`).
- The exporter's `resource_count` counts list elements that are no dicts (`TerraformNames.ResourceCountIff`).
- A requested space id that is in use replaces that space (`Spaces.CreateThenDeleteIff`). Negative counts are not
  refused and pass every budget (`Spaces.NegativeCountsPassBudgetsIff`).
- Cedar policies take `Action: "*"` and resource globs literally (`Cedar.OneStatementExact`), while the
  documentation of the compiler says that trailing wildcards are translated. Documents that compile to nothing
  allow everything (`Cedar.DecidesAsStatementsIff`), and so does an engine that fails (`Cedar.ErrorAllowsIff`).

A request with a blank provider would get a new space on every access (`SpaceProxy.NewSpaceBelongs`,
`SpaceProxy.BlankProviderKeepsNothing`). The middleware never sets one: it chooses among three constants
(core/middleware.py:348-355).

## Model

| member | source | states |
|---|---|---|
| GcpFirewall.NormPorts | core/gcp_vpc_enforce.py:18-27 | port texts are stripped, ranges get a colon, blank ones go; a scalar counts as a list of one |
| GcpFirewall.RuleLines | core/gcp_vpc_enforce.py:33-86 | the nested loops leave the allow lines and the deny lines of all enabled rules, in order |
| GcpFirewall.EmitOnce | core/gcp_vpc_enforce.py:111-115 | the loop over `seen` appends each line once, at its first place |
| GcpFirewall.BuildScript | core/gcp_vpc_enforce.py:89-116 | the script is both preambles and then every line once, allow lines first |
| GcpFirewall.ScriptPrograms | core/gcp_vpc_enforce.py:89-116 | running the script from any tables leads exactly to the programmed tables |
| GcpFirewall.LinesMember | core/gcp_vpc_enforce.py:33-86 | a line is in a bucket if and only if some enabled rule, entry and range of it give that line |
| GcpFirewall.DedupKeepsWalk | core/gcp_vpc_enforce.py:109-115 | dropping repeated lines never changes what first-match evaluation decides |
| GcpFirewall.BucketHits | core/gcp_vpc_enforce.py:33-86 | a bucket holds a rule that hits a packet if and only if an entry of that direction matches it |
| GcpFirewall.ChainMeansRules | core/gcp_vpc_enforce.py:33-116 | the chain drops a packet if and only if it is new, not loopback, matched by a deny entry and by no allow entry |
| GcpFirewall.ProgramMeansRules | core/gcp_vpc_enforce.py:33-116 | after running the script, a hook lets a packet pass if and only if the rules do not deny it |
| GcpFirewall.NewHookComesFirst | core/gcp_vpc_enforce.py:98-105 | with other rules in the hook, the rules decide before all of them |
| GcpFirewall.ScriptInstalls | core/gcp_vpc_enforce.py:89-116 | from at most one jump per hook, each chain holds exactly the compiled rules and each hook one jump |
| GcpFirewall.ScriptFrame | core/gcp_vpc_enforce.py:89-116 | no other chain changes |
| GcpFirewall.ReprogrammingForgets | core/gcp_vpc_enforce.py:89-92 | programming after any older programming equals programming once; with equal rules, the script is idempotent |
| GcpFirewall.ClearRestores | core/gcp_vpc_enforce.py:119-124 | clearing empties both chains and gives the hooks back, less the jump |
| GcpFirewall.ClearAcceptsAll | core/gcp_vpc_enforce.py:119-124 | after clearing every packet passes |
| GcpFirewall.ForeignPacketIff | core/gcp_vpc_enforce.py:73-85 | a packet that is not TCP, UDP or ICMP is matched by exactly the entries of other protocol names whose ranges cover it |
| GcpFirewall.UnknownProtocolMatchesAll | core/gcp_vpc_enforce.py:81-85 | an entry matches every packet of its ranges if and only if its protocol is none of tcp, udp, icmp and 1 |
| GcpFirewall.RangesAreEverywhereIff | core/gcp_vpc_enforce.py:66-68 | ranges stand for all addresses if and only if they are no list or name nothing else |
| AzureNsg.OrderSorts | core/azure_nsg_enforce.py:36-37 | the order of the rules is a stable permutation by priority |
| AzureNsg.BuildScript | core/azure_nsg_enforce.py:28-77 | the loop over the sorted rules yields the script's commands |
| AzureNsg.LinesDecide | core/azure_nsg_enforce.py:39-75 | appending the lines, stopping where one is refused, makes the chain give the first applying rule's action |
| AzureNsg.ChainFollowsPriority | core/azure_nsg_enforce.py:28-77 | a packet gets the action of the applying installed rule with the smallest priority number, earliest among equals, else falls through |
| AzureNsg.WinnerExists | core/azure_nsg_enforce.py:36-77 | a packet that an installed rule applies to has such a rule |
| AzureNsg.SoundRulesAreInstalled | core/azure_nsg_enforce.py:30-77 | all rules are installed if and only if iptables accepts every one |
| AzureNsg.HookConsultsChain | core/azure_nsg_enforce.py:31-33 | either hook asks the chain first and its own rules after |
| AzureNsg.DirectionIsNotEnforced | core/azure_nsg_enforce.py:63-75 | a sound deny rule of one direction drops a packet of the other if and only if it applies to it, whatever other rules the hook holds |
| AzureNsg.WildcardAppliesToAll | core/azure_nsg_enforce.py:54-72 | a rule applies to every packet if and only if it asks for no protocol, address or port |
| AzureNsg.ReprogrammingForgets | core/azure_nsg_enforce.py:28-34 | programming after any older programming, complete or cut short, equals programming once |
| AzureNsg.ClearRemovesChainIff | core/azure_nsg_enforce.py:80-87 | clearing removes the chain if and only if no jump to it is left |
| AzureNsg.ClearUndoesScript | core/azure_nsg_enforce.py:80-87 | clearing after programming gives the tables back as they were, without the chain |
| RateLimiter.Limiter.Take | core/middleware.py:268-285 | one call answers and updates the buckets as specified, and changes no other bucket |
| RateLimiter.CallLowersCredit | core/middleware.py:276-284 | no call raises a tenant's credit at time zero, and an admission lowers it by one, whatever the clock says |
| RateLimiter.OtherTenantsUntouched | core/middleware.py:275-285 | another tenant's bucket never changes |
| RateLimiter.AnswerIsOwn | core/middleware.py:275-285 | the answer depends on the caller's own bucket alone |
| RateLimiter.AdmissionBound | core/app_context.py:1199-1221 | a stretch of calls ending in an admission admits at most 4 rps, plus rps for every second between first and last admission |
| RateLimiter.RetryExact | core/middleware.py:276-285 | after a denial a lone retry is admitted if and only if the missing part of a token has flowed in |
| RateLimiter.RetryAfterSuffices | core/middleware.py:283-285 | waiting for `retry_after` is enough |
| AuthLimiter.Prune | core/admin_auth.py:96-97 | exactly the attempts of the last minute are kept, in order |
| AuthLimiter.Limiter.Check | core/admin_auth.py:91-104 | the decision and the new store are as specified |
| AuthLimiter.StoreIsTail | core/admin_auth.py:91-104 | the store is a tail of the whole history, and what was forgotten is a minute old |
| AuthLimiter.DecisionLooksAtWholeHistory | core/admin_auth.py:91-104 | an attempt is accepted if and only if fewer than five of all attempts ever accepted are younger than a minute |
| AuthLimiter.SixSpanAMinute | core/admin_auth.py:91-104 | any six accepted attempts of one address span at least a minute |
| SpaceProxy.SpaceStore.PivotToMatchingSpace | core/app_context.py:805-831 | the first space of the pair is found, or one is created at the end |
| SpaceProxy.SpaceStore.Access | core/app_context.py:777-837 | an access acts on the spaces as one step of the model |
| SpaceProxy.NewSpaceBelongs | core/app_context.py:821-829 | a space created for a pair belongs to it if and only if the provider is not blank |
| SpaceProxy.StepFrame | core/app_context.py:783-831 | one access changes no space of another pair, moves no active id, and adds a space only for a pair without one |
| SpaceProxy.StepActsOnView | core/app_context.py:777-837 | for its own pair an access acts as on a private dictionary |
| SpaceProxy.StepHidesFromOthers | core/app_context.py:783-794 | what every other pair sees stays the same |
| SpaceProxy.PairsAreIsolated | core/app_context.py:777-837 | over every interleaving each pair sees, and is answered, exactly as if it used a dictionary alone |
| SpaceProxy.ReadsOwnWrite | core/app_context.py:833-880 | a pair reads back its last write, whatever others do in between |
| SpaceProxy.AtMostOneSpaceCreated | core/app_context.py:819-831 | a run creates at most one space per pair |
| SpaceProxy.BlankProviderKeepsNothing | core/app_context.py:781-794 | with a blank provider each access adds a space that is not found again |
| Provisioner.StepKeepsInv | core/backend_provisioner.py:481-611 | every atomic step of a worker, a caller or the daemon keeps the invariant |
| Provisioner.ReachableInv | core/backend_provisioner.py:286-299 | the invariant holds in every reachable state |
| Provisioner.MutualExclusion | core/backend_provisioner.py:483-487 | at most one worker is between acquire and release, and a held lock is held by a live one |
| Provisioner.CreationIsSafe | core/backend_provisioner.py:400-411 | a container comes only from outside or from the lock holder's creation, which fails and changes nothing where one exists |
| Provisioner.CreationFindsNone | core/backend_provisioner.py:492-498 | unless others create one, there is no container from finding none until creating one |
| Provisioner.NothingStuckInFlight | core/backend_provisioner.py:572-577 | a state shown in flight has a live lock holder that is bound to change it |
| Provisioner.ReadyOnlyAfterProbe | core/backend_provisioner.py:427-446 | READY is written only by the lock holder, after its own probe found the container running, the lock held ever since |
| Provisioner.ReadyIsTrueIff | core/backend_provisioner.py:435-440 | READY is written over a running container if and only if every fall since the probe was mended |
| Provisioner.WorkerEnds | core/backend_provisioner.py:513-518 | whatever fails, a worker ends within fourteen of its own steps and the lock is no longer its own |
| Provisioner.StaleReady | core/backend_provisioner.py:596-611 | a stop between the wait and the write leaves READY over a halted container |
| Provisioner.StaleReadyIsReachable | core/backend_provisioner.py:507-511 | two requests from the start come to rest in that state |
| Provisioner.ProvisionDecides | core/backend_provisioner.py:572-593 | a request starts a worker if and only if it read neither an in-flight state nor READY |
| Provisioner.NobodyWaits | core/backend_provisioner.py:484-487 | every move of a request nears its answer whatever holds the lock, and a worker that meets the lock leaves at once |
| Provisioner.AbsentIff | core/backend_provisioner.py:578-583 | the state is ABSENT if and only if it was never written or the last write is a request's reset |
| Provisioner.RequestIsLostIff | core/backend_provisioner.py:484-487 | at rest the state is ABSENT if and only if the last write is the reset of an accepted request whose worker met the lock held |
| Provisioner.LostRequestIsReachable | core/backend_provisioner.py:566-593 | two requests from the start come to rest with one of them lost |
| JsonString.StringRoundTrip | core/terraform_export.py:97-98 | every string is read back from its JSON literal (section 7 of RFC 8259), whatever follows |
| JsonString.QuoteIsAscii | core/terraform_export.py:97-98 | a literal is printable ASCII |
| ValueText.PrintRoundTrip | core/terraform_export.py:89-116 | the text of every value, at any indent and whatever follows, is read as what it stands for: keys stripped, other types by their `str` |
| ValueText.ParsePrint | core/terraform_export.py:82-116 | parsing the text of any value returns what it stands for |
| ValueText.RoundTripIff | core/terraform_export.py:82-116 | parsing returns the value itself if and only if its keys are stripped and nothing in it is written through `str` |
| ValueText.PrintIsInjective | core/terraform_export.py:82-116 | no text stands for two values that survive, at any indents |
| ValueText.PrintsAlikeIff | core/terraform_export.py:82-116 | two values have one text if and only if they stand for the same |
| HclBlocks.BlockRoundTrip | core/terraform_export.py:119-126 | a block is read back with its kind, stripped labels and attributes, at any indent |
| HclBlocks.FileRoundTrip | core/terraform_export.py:119-165 | a whole file, header or note included, is read back as what its blocks stand for, in order |
| HclBlocks.FileRoundTripIff | core/terraform_export.py:119-165 | it is read back as the very blocks if and only if their labels and keys are stripped and nothing in them is written through `str` |
| TerraformNames.SlugIsClean | core/terraform_export.py:21-28 | a slug is a lower-case identifier of at most 63 characters without doubled underscores, whatever the value |
| TerraformNames.SlugFixedIff | core/terraform_export.py:21-28 | a value is its own slug if and only if it is clean and does not end in an underscore |
| TerraformNames.TakenFit | core/terraform_export.py:451-453 | no more candidates can be taken than names are in use: the naming loop ends |
| TerraformNames.FreeName | core/terraform_export.py:448-453 | the loop finds the first candidate that is not in use |
| TerraformNames.FirstFreeIsUnique | core/terraform_export.py:449-453 | the suffix it stops at is unique and at most one more than the number of names |
| TerraformNames.Export | core/terraform_export.py:421-479 | every supported node's attributes stand under its own name, the rest is listed, and the counts add up to the dict nodes |
| TerraformNames.NamesAreDistinct | core/terraform_export.py:448-455 | no two nodes get the same type and name |
| TerraformNames.PlainNameIff | core/terraform_export.py:448-454 | a node keeps its plain slug if and only if no earlier node of its type was given that name |
| TerraformNames.NamesAreIdentifiers | core/terraform_export.py:448-455 | every exported name is an identifier that HCL prints bare |
| TerraformNames.CountsAddUp | core/terraform_export.py:475-479 | supported plus unsupported is the number of dict nodes |
| TerraformNames.ResourceCountIff | core/terraform_export.py:475-477 | `resource_count` agrees with that sum if and only if every node is a dict |
| AuditChain.VerifyChain | core/security_audit.py:104-134 | the loop returns the verdict of the specification, naming the first bad row |
| AuditChain.IntactIffChained | core/security_audit.py:119-134 | a log is accepted if and only if every row links to the one before and carries the hash of its contents |
| AuditChain.AuditLog.AppendEvent | core/security_audit.py:53-82 | one row is appended, linked to the last |
| AuditChain.AppendsVerify | core/security_audit.py:53-134 | a log built by appends of any details is chained, provided the reader undoes the dumps of those details |
| AuditChain.BuiltLogsVerify | core/security_audit.py:53-134 | with the reader of the model every log built by appends verifies |
| AuditChain.TextDeterminesEntry | core/security_audit.py:42-43 | the hashed text determines event, detail, address, time and previous hash |
| AuditChain.SameEndSameLog | core/security_audit.py:104-134 | two accepted logs with the same last hash are the same entry by entry, or verifying them hashes two different texts to one value |
| AuditChain.TamperingIsDetected | core/security_audit.py:104-134 | a change that keeps the last hash is reported, or comes with two such texts |
| AuditChain.RearrangedVerifiesIff | core/security_audit.py:119-134 | rows of an intact log, in any choice and order, verify if and only if they are a prefix of it, or the log itself hashes two texts to one value |
| AuditChain.PrefixIsChained | core/security_audit.py:119-134 | a log cut off at the end still verifies |
| Decimal.DigitsRoundTrip | core/gcp_firestore_emulator.py:59 | a natural number is read back from its digits, which have no leading zero |
| Decimal.CanonicalIntRoundTrip | core/gcp_firestore_emulator.py:57-61 | a canonical integer text is the text of the integer it is read as |
| Base64.DecodeEncode | core/cloudlearn_platform.py:55-57 | bytes survive base64 (section 4 of RFC 4648) |
| Base64.EncodeDecode | core/gcp_firestore_emulator.py:70-74 | a canonical text survives decoding and encoding |
| Base64.UrlRoundTrip | core/sso_config.py:106-108 | bytes survive unpadded URL-safe base64 with the padding put back (appendix C of RFC 7515) |
| Jwk.IntegerRoundTrip | core/license_remote.py:72-80 | a key integer is written in the fewest bytes and read back as it was (section 6.3.1 of RFC 7518) |
| Jwk.WriteIsInjective | core/license_remote.py:72-80 | different integers have different texts |
| Jwk.ZeroIsEmpty | core/license_remote.py:73-75 | the text is empty if and only if the integer is zero |
| Firestore.FromToTyped | core/gcp_firestore_emulator.py:52-109 | every value comes back, whatever its keys, with tuples and other objects as texts |
| Firestore.FromToTypedIff | core/gcp_firestore_emulator.py:52-109 | a value comes back as it was if and only if it holds no tuple and no object of another type |
| Firestore.ToTypedIsCanonicalIff | core/gcp_firestore_emulator.py:90-109 | what is written is canonical, one known tag per dict, if and only if it holds no datetime |
| Firestore.ToFromTypedIff | core/gcp_firestore_emulator.py:52-109 | a document is the typed form of what it is read as if and only if it is canonical |
| StateCodec.EncodingKeepsTags | core/cloudlearn_platform.py:55-64 | encoding makes no bytes tag and breaks none |
| StateCodec.RoundTripIff | core/cloudlearn_platform.py:55-74 | a value comes back, tuples as lists, if and only if no dict in it looks like encoded bytes |
| StateCodec.EncodedIsJsonIff | core/cloudlearn_platform.py:55-64 | an encoded value is a JSON value if and only if it holds no object of another type |
| StateStore.SortOrders | core/cloudlearn_platform.py:142-143 | the entries are sorted by their keys |
| StateStore.SortedIsInOrder | core/cloudlearn_platform.py:142-143 | the keys are in order at every depth |
| StateStore.SortedEncoded | core/cloudlearn_platform.py:142-143 | sorting the keys of the encoded state is encoding the state with sorted keys |
| StateStore.SortKeepsLookup | core/cloudlearn_platform.py:142-143 | a sorted dict answers every lookup as before |
| StateStore.Store.WriteState | core/cloudlearn_platform.py:142-156 | the row holds the text and its signature; a state with an object of another type is refused and changes nothing |
| StateStore.Store.ReadState | core/cloudlearn_platform.py:121-140 | a missing, malformed or wrongly signed row gives no state, any other the decoded payload |
| StateStore.WrittenIsReadIff | core/cloudlearn_platform.py:121-156 | a written state is read back, keys in order and tuples as lists, if and only if no dict in it looks like encoded bytes |
| QueryFlatten.Flatten | core/elasticmq_proxy.py:33-62 | the recursive loops leave the parameters of all leaves, later ones overwriting |
| QueryFlatten.JoinIsInjective | core/elasticmq_proxy.py:47-54 | dotted names of dot-free paths are unambiguous |
| QueryFlatten.OneParameterPerLeaf | core/elasticmq_proxy.py:33-62 | with non-empty dot-free keys there is exactly one parameter per scalar leaf, named by its path and holding its text |
| QueryFlatten.DottedKeyCollides | core/elasticmq_proxy.py:46-51 | a key with a dot loses a leaf beside a dict under the part before the dot, below any prefix |
| QueryFlatten.EmptyKeyCollides | core/elasticmq_proxy.py:46-51 | an empty key at the top loses a leaf beside any key that occurs below it |
| QueryFlatten.BadKeyLosesALeaf | core/elasticmq_proxy.py:46-51 | every key that is empty or has a dot occurs in a tree that loses a leaf |
| Spaces.Kernel.CreateSpace | core/cloudlearn_platform.py:836-925 | a creation is refused over the limit or a budget, in that order, and otherwise leaves the specified state |
| Spaces.Kernel.SwitchSpace | core/cloudlearn_platform.py:927-935 | an unknown id is refused, a known one becomes active |
| Spaces.Kernel.ChangeStatus | core/cloudlearn_platform.py:937-962 | only the status of the named space changes |
| Spaces.Kernel.DeleteSpace | core/cloudlearn_platform.py:964-972 | the space goes, and a deleted active space hands over to the oldest left |
| Spaces.StepKeeps | core/cloudlearn_platform.py:836-972 | every operation keeps ids unique, the active id right, and limit and budgets respected |
| Spaces.RunsAreSound | core/cloudlearn_platform.py:719-972 | after every run the active id is empty exactly when there are no spaces and otherwise names one, within limit and budgets |
| Spaces.ActiveIsFound | core/cloudlearn_platform.py:758-764 | the active space is found exactly when there are spaces |
| Spaces.ActiveStays | core/cloudlearn_platform.py:836-972 | an active space stays active until it is deleted or another is switched to |
| Spaces.StepLeavesOthers | core/cloudlearn_platform.py:836-972 | no operation touches or reorders spaces other than its target |
| Spaces.CreateThenDeleteIff | core/cloudlearn_platform.py:836-972 | creating and deleting restores spaces and active id if and only if the id was free |
| Spaces.HonestCountsIff | core/cloudlearn_platform.py:841-868 | some creation with non-negative counts is accepted if and only if the limit is not reached and the base cost is within both budgets |
| Spaces.NegativeCountsPassBudgetsIff | core/cloudlearn_platform.py:841-868 | some creation with any counts is accepted if and only if the limit is not reached |
| Cedar.Engine.AddPolicy | core/cedar_engine.py:73-77 | policies are added to those of the space, and to no other |
| Cedar.Engine.Evaluate | core/cedar_engine.py:88-118 | no engine, no policies or an error allow; otherwise some permit and no forbid must apply |
| Cedar.Compile | core/cedar_engine.py:124-158 | the nested loops emit the policies of all statements, actions and resources, in order |
| Cedar.PoliciesHit | core/cedar_engine.py:133-157 | a permit applies if and only if an allow statement of the principal matches, a forbid if and only if a deny statement does |
| Cedar.DecidesAsStatementsIff | core/cedar_engine.py:88-158 | with no wildcard but the resource `*`, the store decides as the attached statements if and only if a policy came out of them |
| Cedar.ErrorAllowsIff | core/cedar_engine.py:114-118 | an engine that fails decides as the statements if and only if a permit applies and no forbid does |
| Cedar.NoPoliciesIff | core/cedar_engine.py:133-158 | nothing comes out if and only if every statement lacks actions or resources |
| Cedar.OneStatementExact | core/cedar_engine.py:143-157 | one allow statement is decided as written if and only if it has no wildcard but the resource `*` |

## Left out

- Texts of addresses and port ranges are not interpreted: a parameter of the firewall model says which ones iptables accepts and what they cover.
- GcpFirewall.RuleLines: `rule_applies` (target tags) is not modelled; the list is the rules that apply to one instance.
- AzureNsg.BuildScript: a priority that is no integer, which makes the source raise, is not modelled.
- RateLimiter.Limiter.Take: floating-point rounding is not modelled; times and tokens are reals, and a call is one step because the source holds a lock. A rate of zero or less, which admits everything, is in the method but outside the bounds.
- AuthLimiter.Limiter.Check: calls are atomic here; the source takes no lock.
- SpaceProxy.SpaceStore.Access: an access is atomic here, and switching or deleting the active space during a run is outside the isolation claim, as is the fallback without an active space. `update`, `setdefault`, iteration and the other dict methods are left to `Get`, `Put`, `Remove` and `Clear`, which they are made of.
- Provisioner.ReachableInv: pull progress, container ids, `started_at` and the status dictionary are left out; clocks are outcomes of steps, and a probe that succeeds, over HTTP too, does so while the container runs.
- ValueText.ParsePrint: `str` of bytes, tuples and objects of other types is a parameter, and a float is known by its `repr`, which is what both printers write. Dict keys are texts.
- ValueText.ParsePrint: the reader takes blanks, commas, colons and equal signs for separators and keeps repeated keys apart; it is not a full HCL or JSON parser, but it undoes the printers.
- JsonString.StringRoundTrip: lone surrogates are no characters of Dafny's `char`.
- HclBlocks.FileRoundTrip: the choice and sorting of the blocks of each file are left out; the header and the note stand for any comment lines.
- TerraformNames.Export: the table of types and the attributes of each type are parameters; provider blocks and the other summary fields are left out. A suffix is added to a slug of up to 63 characters, so an exported name can be longer.
- TerraformNames.SlugIsClean: case folding and stripping cover ASCII only, here and in the other modules.
- AuditChain.SameEndSameLog: SHA-256 is any function, and `json.loads` any reader that returns JSON values; a collision between texts of the two logs is named instead of being assumed away.
- AuditChain.AuditLog.AppendEvent: details with keys that are no texts, and the errors that `append_event` swallows, are left out.
- StateStore.WrittenIsReadIff: `json.loads` is any reader that undoes `json.dumps`, and signing and verifying are parameters with verification accepting what was signed. Paths, which are written as their text, and keys that are no texts are left out, and so are the tables, the legacy pickle and the default state.
- Firestore.FromToTyped: `int` of a text with underscores, and `int` and `float` of raw bytes, which no JSON document holds, are not read; the other conversions of floats are parameters.
- Jwk.IntegerRoundTrip: key files, signatures and key selection are left out.
- QueryFlatten.Flatten: `str` of a scalar is a parameter; the URL encoding and the action name are left out.
- Spaces.Kernel.CreateSpace: the cost estimate in money and the fixed initial contents of a space (service states, cloudsim policy, empty logs) are left out; spaces that the proxy creates do not pass through the limit.
- Cedar.Compile: a policy is modelled by what it parses to, so the quoting of action and resource texts is left out; so are the GCP and Azure compilers, which are single templates.
- Cedar.OneStatementExact: AWS reads action names without regard to case; the globs of the model compare them exactly.
- The rest of the repository is catalogue data, templates, HTTP handlers and clients of other programs.
