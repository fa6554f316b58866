# A model of the Portus controller in Dafny

Portus compiles Kubernetes Gateway API objects into a flat routing configuration, slices it per
Gateway, fingerprints and broadcasts it, and its data planes match requests against it. This
project models that pipeline and the protocols around it, and proves what they promise.

`dafny verify dfyconfig.toml` checks everything.

| module | models |
|---|---|
| `Hostnames` | hostname intersection and effective hostnames |
| `Store`, `Rules`, `Compiler`, `CompileLoops` | the HTTP and gRPC route compiler: what is compiled, and the nested loops that push it |
| `Policies`, `Effects`, `Sections` | policy index, lookup and in-place application; what each kind does; which copies of a route a policy reaches |
| `Listeners`, `Matching`, `Matcher` | the request matcher: listener isolation, host buckets, criteria, 421 |
| `Meaning`, `Preservation`, `Carried`, `ServedHosts` | what the stored objects say, without the code's own tests; compiling, slicing and then matching means that; what a compiled route carries; which hosts are answered |
| `FastMatcher`, `EmptyPrefixes` | the prebuilt route map against the linear matcher |
| `CompilationLoop`, `LoopProgress`, `CompileOrders`, `Debounce` | writers, dirty flag, permit, torn compiles, publication; its progress; the compile as its program; the debounce |
| `Slicing` | fingerprints and per-Gateway slices |
| `L4Routes`, `L4Meaning`, `Winners` | TCP/UDP conflicts, policy winners, backend TLS selection |
| `LeaderElection` | the lease protocol and the renewal loop |
| `Status` | status entries shared by several controllers |
| `Programmed`, `ProgrammedRuns`, `ProgrammedRaces` | the Programmed answer of a Gateway and its events; what listeners know over runs, and the runs after which they are wrong |
| `Sessions` | data plane streams and the record of their nodes |
| `Collections`, `Text`, `Types` | sequences and sorting, strings, shared data types |

Conventions. A `char` is one byte of UTF-8. Strings are ordered as Rust orders them, byte by
byte. Maps that the code iterates are sequences in iteration order; results that must not depend
on it are proved for every order. `sort_by` is a stable sort. A method with loops is proved equal
to a function, and the properties are proved of that function.

Assumptions, each explicit in the model:

- A hash is a function of the element hashed (`Slicing.Hasher`). Messages with map fields need a
  canonical encoding for that.
- A compile is, for each order of its hash sets, a program over what it reads, one atomically
  readable cell at a time (`CompilationLoop.Orders`); a cell stands for one shard of one
  concurrent map.
- A lease patch lands only on the lease it was computed from, and fields a patch omits keep their
  value (`LeaderElection.Rules`); a run that breaks is exhibited without each.
- A controller's success is dated by the renew time it wrote; dating it by the return of the call
  is treated separately.
- A status patch replaces the whole list of parents (`Status.Rules` says when it may land and
  how old a read may be).
- One read of a Gateway's Programmed answer is one step, and so is one change of the maps behind
  it. Operations take no lock: they may overlap, and listeners may be late, unless
  `ProgrammedRuns.Rules` says otherwise.

Where code and documentation disagree, the model follows the code: wildcards span several labels
although a comment at `crates/portus-controller/src/compiler.rs:1397` says one; a host with
upper-case letters misses its bucket although listener selection ignores case; the "oldest"
backend TLS policy is not picked when the first one has no timestamp.

## Model

| member | source | states |
|---|---|---|
| `Hostnames.IntersectSound` | crates/portus-controller/src/reconcilers/mod.rs:235-283 | A host is claimed by the intersection of two hostnames exactly when both claim it; wildcards span several labels |
| `Hostnames.IntersectExact` | crates/portus-controller/src/reconcilers/mod.rs:235-283 | The intersection is exact for all hosts if and only if the literal `*` stands on both sides or on neither |
| `Hostnames.ClaimsExactly` | crates/portus-controller/src/reconcilers/mod.rs:235-283 | `*` claims every host, `*.suffix` exactly the hosts with something before that suffix, any other hostname itself, up to letter case |
| `Hostnames.ComputeEffectiveHostnames` | crates/portus-controller/src/compiler.rs:1399-1441 | The nested loops fill the sorted set of pairwise intersections |
| `Hostnames.EffectiveSound` | crates/portus-controller/src/compiler.rs:1399-1441 | An effective hostname claims only hosts that some listener and the route claim |
| `Hostnames.EffectiveDenotes` | crates/portus-controller/src/compiler.rs:1346-1441 | With every hostname paired with a literal `*` covered: a host is claimed by an effective hostname exactly when some listener claims it and some route hostname (or the lack of any) does |
| `Hostnames.EffectiveDenotesExactly` | crates/portus-controller/src/compiler.rs:1346-1441 | That holds for all hosts if and only if, for every listener and route hostname of which exactly one is the literal `*`, some effective hostname claims the other one |
| `Hostnames.EffectiveCanonical` | crates/portus-controller/src/compiler.rs:1399-1441 | The effective hostnames are strictly sorted and unchanged by permuting or repeating listeners or route hostnames |
| `Rules.CollectFilters` | crates/portus-controller/src/compiler.rs:1957-2047 | The filter loop computes the fold of the rule's filters |
| `Rules.LastFilterWins` | crates/portus-controller/src/compiler.rs:1957-2047 | Of several filters of one kind the last one is compiled |
| `Rules.SlotsFilled` | crates/portus-controller/src/compiler.rs:1957-2047 | A filter slot is filled exactly when the rule has a filter of its kind |
| `Rules.PairsExactly` | crates/portus-controller/src/compiler.rs:1957-2047 | Of several header pairs with one name the last counts |
| `Rules.FirstModifier` | crates/portus-controller/src/compiler.rs:2049-2226 | A backend carries its first request-header modifier, and none when it has none |
| `Rules.MirrorsAccumulate` | crates/portus-controller/src/compiler.rs:1957-2047 | Mirror filters accumulate, in rule order |
| `Rules.PushEntry` | crates/portus-controller/src/compiler.rs:2049-2226 | Each of the three branches pushes exactly one config for a match entry, with the first backend as primary and all backends as weights when weights are needed |
| `Rules.CompileHttpRule` | crates/portus-controller/src/compiler.rs:1940-2226 | A rule compiles to one config per match entry (one in all when it has none), in order |
| `CompileLoops.CheckGrant` | crates/portus-controller/src/compiler.rs:513-538 | Looking the primary up by name and port and checking its grant clears it exactly when the rule's first backend is in another namespace without a grant, and changes nothing else |
| `CompileLoops.PushHttpRule` | crates/portus-controller/src/compiler.rs:476-557 | The host and config loops push the emissions of the rule, routes and sources side by side |
| `CompileLoops.CompileHttpRoute` | crates/portus-controller/src/compiler.rs:346-559 | The nested parentRef, listener, rule and host loops of one HTTPRoute push its emissions in order, aligned |
| `CompileLoops.GrpcRouteFor` | crates/portus-controller/src/compiler.rs:735-823 | The weighted, empty and single-backend branches yield the gRPC emission; only the single unweighted backend is checked for its grant |
| `CompileLoops.CompileGrpcRoute` | crates/portus-controller/src/compiler.rs:563-830 | The nested loops of one GRPCRoute push its emissions in order, aligned |
| `CompileLoops.PushAll` | crates/portus-controller/src/compiler.rs:346-830 | Routes and sources keep equal length and stay aligned through every emission branch |
| `CompileLoops.CompileRoutes` | crates/portus-controller/src/compiler.rs:346-830 | The loops, followed by policy application, compute the compiled routes of the store |
| `Compiler.BindingsExact` | crates/portus-controller/src/compiler.rs:346-830 | The loops visit a (route, parentRef, listener, rule, host, match entry) if and only if the parentRef is accepted, the listener is accepted, of a fitting protocol, selected by section and port and open to the namespace, and the host is an effective one |
| `Compiler.CompiledHasReason` | crates/portus-controller/src/compiler.rs:346-830 | Every compiled route comes from such a binding |
| `Compiler.ReasonIsCompiled` | crates/portus-controller/src/compiler.rs:346-830 | Every such binding is compiled |
| `Meaning.ReasonsVisited` | crates/portus-controller/src/compiler.rs:346-830 | The loops visit exactly the reasons the stored objects give: a stored route attached at a listener, one of its rules, one of the rule's matches (or none, if it has none) and an effective hostname |
| `Meaning.AttachedIsSite` | crates/portus-controller/src/compiler.rs:384-475 | A route is attached at a listener exactly when an accepted parentRef names the Gateway, or the accepted ListenerSet, that has it, the listener is accepted and speaks HTTP or HTTPS, section and port fit, and it lets the namespace in |
| `Meaning.LetsInExactly` | crates/portus-controller/src/reconcilers/http_route.rs:291-312 | A listener lets a namespace in: all of them, its own (the ListenerSet's own for one of a ListenerSet), or those with every label selected |
| `Meaning.OwnerExactly` | crates/portus-controller/src/compiler.rs:31-48 | What is attached through a parentRef is owned by the Gateway it names, or by the parent Gateway of the ListenerSet it names |
| `Meaning.GrantedExactly` | crates/portus-controller/src/reconcilers/mod.rs:306-358 | A reference is allowed inside a namespace, or when a grant of the target namespace opens it to that kind and namespace, by name or altogether |
| `Policies.IndexPolicies` | crates/portus-controller/src/compiler.rs:1522-1540 | The index lists, per route key and for Gateways, exactly the policy positions to look at, ascending |
| `Policies.IndexEqualsScan` | crates/portus-controller/src/compiler.rs:1484-1540 | For every policy list and source, lookup through the index equals the scan: first policy targeting the route directly, else first Gateway policy in list order naming a parent and its section |
| `Policies.Applicable` | crates/portus-controller/src/compiler.rs:1484-1513 | Some policy applies exactly when one targets the route or one of its parents |
| `Policies.Lookup` | crates/portus-controller/src/compiler.rs:1484-1513 | A lookup through the built index returns the applicable policy |
| `Policies.ApplyPolicies` | crates/portus-controller/src/compiler.rs:1549-1795 | The in-place loop decorates every route from its own source and no other |
| `Policies.Applied` | crates/portus-controller/src/compiler.rs:1549-1795 | No policy changes a field a route is matched or forwarded by |
| `Policies.AuthChoice` | crates/portus-controller/src/compiler.rs:1646-1716 | A route has an auth block exactly when an auth policy matches it: Basic before API key before JWT, with the credentials of the attached policy's own Secret, or no valid one when that Secret is missing |
| `Effects.ScanGoverns` | crates/portus-controller/src/compiler.rs:1484-1540 | The policy found is the first that names the route by kind, namespace and name or, when none does, the first that names one of its Gateways, and a section only through a parentRef naming it |
| `Effects.PolicyEffects` | crates/portus-controller/src/compiler.rs:1549-1795 | Rate limit, circuit breaker, connection limit, allowlist, external authorization, body size and authentication become those of the governing policies and stay as they were (on a compiled route, absent) without one; retries and CORS only where the rule has none of its own; each positive timeout over its own field and no other |
| `Sections.RoutePolicyExactly` | crates/portus-controller/src/compiler.rs:543-552 | A policy on a route reaches the copies of that route, an AIRoute by the name behind the mark of its key, and no others |
| `Sections.DecoratesExactly` | crates/portus-controller/src/compiler.rs:1484-1513 | A policy on a Gateway or one of its sections decorates exactly the copies of a route compiled onto that Gateway (and listener) if and only if: a parentRef names it and the route has no copy elsewhere, or none names it and no parentRef without sectionName binds the listener |
| `Sections.GuardedExactly` | crates/portus-controller/src/compiler.rs:1646-1716 | With one Basic policy so targeted, exactly the copies compiled there ask for Basic credentials, under the same condition and no other |
| `Sections.CopyElsewhereGuarded` | crates/portus-controller/src/compiler.rs:1500-1507 | A route naming listeners `http` and `https`: a policy on section `https` guards its copy on `http` |
| `Sections.BoundCopyUnguarded` | crates/portus-controller/src/compiler.rs:1500-1507 | A route naming the Gateway without a section: its copy on `https` is not guarded by a policy on section `https` |
| `Matching.PrefixIsElementwise` | crates/portus-controller/src/conformance_tests.rs:221-267 | Byte-wise prefix matching is matching of whole path elements |
| `Matching.ElementsSplit` | crates/portus-controller/src/conformance_tests.rs:221-267 | Splitting a path at slashes loses nothing, and no element holds a slash |
| `Meaning.GrpcPathAsked` | crates/portus-controller/src/compiler.rs:699-714 | The path compiled for a gRPC match has exactly the elements asked for: service and method, service alone, or anything |
| `Meaning.GrpcCalls` | crates/portus-controller/src/compiler.rs:699-714 | With names without slashes, a call satisfies it exactly when the path begins with a slash, its first element is the service, if one is asked for, and its second the method, if one is asked for too |
| `Listeners.SelectMostSpecificListener` | crates/portus-controller/src/conformance_tests.rs:184-217 | The scoring loop returns the first listener of highest score |
| `Listeners.SelectionSound` | crates/portus-controller/src/conformance_tests.rs:184-217 | The exact listener if there is one, else the longest matching wildcard, else the catch-all, else none |
| `Listeners.ServesExactly` | crates/portus-controller/src/conformance_tests.rs:184-217 | A listener without hostname serves every host; one with a hostname serves exactly the hosts it claims, the literal `*` only itself |
| `Listeners.SelectionExact` | crates/portus-controller/src/conformance_tests.rs:184-217 | That holds for every listener list if and only if the host is itself spelled as a wildcard or no dot of it leaves 9000 bytes or more behind it (section 2.3.4 of RFC 1035 allows 255 octets) |
| `Listeners.LongWildcardWins` | crates/portus-controller/src/conformance_tests.rs:184-217 | A listener list on which a wildcard of that length beats the exact hostname |
| `Listeners.SelectionOrderFree` | crates/portus-controller/src/conformance_tests.rs:184-217 | With hostnames distinct up to letter case, the order of the list does not matter |
| `Listeners.FindWildcardBucket` | crates/portus-controller/src/conformance_tests.rs:112-129 | The dot-by-dot loop terminates and returns the first wildcard key met |
| `Listeners.WalkLongest` | crates/portus-controller/src/conformance_tests.rs:112-129 | The wildcard bucket found is the longest available, and one is found whenever there is one |
| `Listeners.BucketExactly` | crates/portus-controller/src/conformance_tests.rs:112-129 | For every host, the walk returns a key if and only if it is the host itself or the longest key that fits: a wildcard of a suffix, or `*` |
| `Listeners.LongestClaimFound` | crates/portus-controller/src/conformance_tests.rs:112-129 | Among lower-case keys a lower-case host without leading dot gets a bucket whenever some key claims it, and no claiming key but the host itself is longer |
| `Listeners.BucketClaimsExactly` | crates/portus-controller/src/conformance_tests.rs:112-129 | The bucket claims the host, for every set of keys, if and only if the host does not start with a dot |
| `Matcher.MatchRequestOnPort` | crates/portus-controller/src/conformance_tests.rs:61-175 | Port filter, sort-dedup, listener choice, grouping by host, bucket walk and sorted scan compute the match |
| `Matcher.MatchCharacterized` | crates/portus-controller/src/conformance_tests.rs:61-175 | A route is returned exactly when one is eligible (port, chosen listener, chosen bucket, criteria), and it is a most specific eligible one; never a route of another listener |
| `Matcher.ChosenIsMostSpecific` | crates/portus-controller/src/conformance_tests.rs:85-101 | The listener bound to a request is the most specific among those with a route on the port |
| `Matcher.CaseBlindExact` | crates/portus-controller/src/conformance_tests.rs:61-175 | Matching ignores the letter case of the host if and only if the host is lower-case already: bucket lookup is case-sensitive |
| `Matcher.MisdirectionOnPort` | crates/portus-controller/src/conformance_tests.rs:5519-5554 | On a non-zero port, when the SNI selects a listener, a request is served by a route of that listener or answered 404, or 421 (section 15.5.20 of RFC 9110) exactly when the Host header selects another listener or none |
| `Matcher.UnselectedSni` | crates/portus-controller/src/conformance_tests.rs:5519-5554 | Where the SNI is absent or selects no listener, the request is matched as any other |
| `Matcher.MisdirectionExact` | crates/portus-controller/src/conformance_tests.rs:5519-5554 | That holds for all configurations on exactly the ports other than 0 |
| `Matcher.PortZeroEscapes` | crates/portus-controller/src/conformance_tests.rs:5519-5554 | On port 0 a request can be served by a listener the SNI check did not consider |
| `Preservation.CompiledMatches` | crates/portus-controller/src/compiler.rs:1940-2226 | A compiled route's criteria hold of a request exactly when its match entry asks for it: path elements, method, and for every header asked exactly a request header of that name, up to letter case, and that value |
| `Preservation.SelectionWins` | crates/portus-controller/src/conformance_tests.rs:184-217 | The scored choice is the one listener that nothing beats in precedence, first of its equals |
| `Preservation.AnswersIffEligible` | crates/portus-controller/src/compiler.rs:384-558 | On everything compiled and on the part of any Gateway, a binding is a reason to answer a request exactly when its compiled route is eligible in the matcher |
| `Preservation.RanksAgree` | crates/portus-controller/src/conformance_tests.rs:130-175 | Of two compiled routes one sorts first exactly when its match entry outranks the other: exact path, then longer path, then more headers |
| `Preservation.CompileThenMatch` | crates/portus-controller/src/compiler.rs:384-558 | Compile, then match, preserves meaning: a route is found exactly when the stored objects give a reason to answer, and it is compiled from one that no other outranks |
| `Preservation.SliceThenMatch` | crates/portus-controller/src/compiler.rs:54-157 | Compile, slice, then match: a data plane on a Gateway's slice finds a route exactly when a binding owned by that Gateway is a reason to answer, as if no other were stored, and the route is compiled from a most specific one |
| `Carried.CompiledCarries` | crates/portus-controller/src/compiler.rs:1940-2226 | The compiled route is what its rule says and its governing policies change: listener and owning Gateway, primary backend unless its grant is gone, weights and their header modifiers, filters, query and gRPC criteria, timeouts, retries and CORS each in its own field |
| `Carried.SliceOfOwner` | crates/portus-controller/src/compiler.rs:54-157 | A compiled route is in the slice of the Gateway that owns it and in no other |
| `Carried.ListenerSetServed` | crates/portus-controller/src/compiler.rs:31-48 | A route attached through a ListenerSet is in the slice of the ListenerSet's parent Gateway and in no other |
| `Preservation.PoliciesFramed` | crates/portus-controller/src/compiler.rs:1549-1795 | Policies leave the routing part of every compiled route alone |
| `ServedHosts.ServedHostsClaimedExactly` | crates/portus-controller/src/compiler.rs:384-558 | Whatever is stored, an answered host is claimed by both the listener's hostname and the route's hostnames, if and only if the host does not start with a dot or has an upper-case letter |
| `ServedHosts.DottedAnswered` | crates/portus-controller/src/conformance_tests.rs:112-129 | A host that starts with a dot is answered by a route for the wildcard of all of it, which does not claim it |
| `ServedHosts.EffectiveLower` | crates/portus-controller/src/compiler.rs:1399-1441 | Effective hostnames are lower-case |
| `FastMatcher.MatchLinear` | crates/portus-controller/benches/pipeline.rs:250-286 | The linear matcher: bucket, sort, first hit |
| `FastMatcher.LinearFinds` | crates/portus-controller/benches/pipeline.rs:250-286 | The linear matcher finds a most specific match among the routes of the request's own host, or of `*` where there is none, whenever there is one |
| `FastMatcher.PlacedParts` | crates/portus-controller/benches/pipeline.rs:147-189 | Each part of a host's built map holds the routes of its kind in insertion order |
| `FastMatcher.Build` | crates/portus-controller/benches/pipeline.rs:147-189 | The build loops produce, per host, the sorted prefix rules and the exact and catch-all buckets of its routes |
| `FastMatcher.MatchFast` | crates/portus-controller/benches/pipeline.rs:191-247 | The fast matcher on a built map: exact bucket, then prefix rules, then catch-all |
| `FastMatcher.FastRefinesLinear` | crates/portus-controller/benches/pipeline.rs:147-326 | With at most one path per route, Exact or a non-empty Prefix, fast and linear both find a match or neither does, with the same path rule, and for prefixes the same route |
| `EmptyPrefixes.SameRouteExactly` | crates/portus-controller/benches/pipeline.rs:191-286 | With at most one path per route, of any kind and empty or not, they return the same route for every request if and only if no exact or catch-all bucket holds an inversion (a later route with more headers, satisfiable together with an earlier one by a request nothing before takes), no rule of another kind surfaces, and no empty prefix is overtaken by a catch-all route |
| `EmptyPrefixes.LinearParts` | crates/portus-controller/benches/pipeline.rs:250-286 | The linear matcher asks the rules with a non-empty path, then empty prefixes and catch-all routes together by header count |
| `EmptyPrefixes.FastParts` | crates/portus-controller/benches/pipeline.rs:191-247 | The fast matcher asks the same rules first, then the empty prefixes by header count, then the catch-all routes in their order |
| `FastMatcher.JointMinimal` | crates/portus-controller/benches/pipeline.rs:230-247 | The joint request used to show an inversion is the smallest: whatever it satisfies, any request satisfying both routes satisfies |
| `FastMatcher.NonIncreasingIsWellOrdered` | crates/portus-controller/benches/pipeline.rs:281-282 | Header counts that never increase inside a bucket suffice |
| `FastMatcher.OtherKindNeverHits` | crates/portus-controller/benches/pipeline.rs:288-326 | Every rule of another kind never matches in the linear matcher and is exactly a prefix test in the fast one |
| `FastMatcher.AgreeUnlessOther` | crates/portus-controller/benches/pipeline.rs:191-326 | Request by request, the matchers agree on the path rule unless the fast answer is a rule of another kind |
| `FastMatcher.OtherKindsAgreeExactly` | crates/portus-controller/benches/pipeline.rs:191-326 | They agree on the path rule of every request if and only if every rule of another kind yields: its headers cannot be met, a rule ahead on the same path takes its smallest request, or exact rules on the path and rules on the path with a slash added both do |
| `CompilationLoop.RunKeeps` | crates/portus-controller/src/compiler.rs:2279-2386 | Every step of every schedule, with writers that change any number of cells per notification, keeps the wake-up, publication, counter and slice invariants |
| `CompilationLoop.NoLostUpdate` | crates/portus-controller/src/compiler.rs:2284-2320 | In every interleaving of writers of one or more cells with torn reads, once writers are done and the loop sleeps without a permit, the store is clean and, unless the last compile panicked, the last compile is a compile of the current store, its fingerprint was sent last and its slices are on record |
| `CompilationLoop.EveryCompileAgrees` | crates/portus-controller/src/compiler.rs:2284-2348 | For a compile whose hash-set order decides nothing but the order of lists, fingerprint sent and slices on record then agree with every compile of the current store |
| `CompileOrders.ModelledOrderBlind` | crates/portus-controller/src/compiler.rs:1098-1128 | The modelled compile is such a compile: it reads the store, compiles HTTP, gRPC, TCP and UDP routes, then reads and compiles one group per Service in the order of a hash set; two compiles of one store differ only in the order of lists, for every reading of the store |
| `CompileOrders.EveryModelledCompileAgrees` | crates/portus-controller/src/compiler.rs:2284-2348 | So at rest fingerprint sent and slices on record agree with every modelled compile of the current store, in any order of the hash set |
| `CompileOrders.ModelledHolds` | crates/portus-controller/src/compiler.rs:1091-1128 | A compile holds the compiled routes of what was read, the TCP and UDP winners each in their list, and one group for exactly the Services named |
| `CompileOrders.ThenGives` | crates/portus-controller/src/compiler.rs:218-262 | A compile in two adaptive parts gives what the second gives after the result of the first, each reading a store that does not change |
| `CompilationLoop.NeverStuck` | crates/portus-controller/src/compiler.rs:2283-2386 | In every reachable state in which the loop is not waiting for a permit, a step of its own is enabled |
| `LoopProgress.LoopAdvances` | crates/portus-controller/src/compiler.rs:2283-2386 | Every step of the loop but waking up and reading one more cell brings it strictly nearer to sleep |
| `LoopProgress.WriterRuns` | crates/portus-controller/src/store.rs:217-221 | Whatever the loop is doing, a writer gets its change, its mark and its notification through: the cell is changed and no other, the store is dirty and a permit is there |
| `LoopProgress.SliceLostOnlyWhenDeparted` | crates/portus-controller/src/compiler.rs:2335-2348 | A recorded slice is lost only when the last compile found its Gateway gone |
| `CompilationLoop.CompileUnique` | crates/portus-controller/src/compiler.rs:2300-2320 | In one order of its hash sets, the compile of a fixed store is unique |
| `CompilationLoop.FirstWakeNeeded` | crates/portus-controller/src/store.rs:210-221 | In every schedule without a notification, whatever is written, the loop stays parked without a permit, the store dirty, nothing compiled and nothing sent |
| `CompilationLoop.BroadcastsOrdered` | crates/portus-controller/src/compiler.rs:2354-2384 | In every run broadcasts are versioned 1, 2, 3, ..., carry the fingerprint of their contents, and consecutive ones differ in it |
| `CompilationLoop.FirstCompileSent` | crates/portus-controller/src/compiler.rs:2354-2358 | The first compile that finishes is the first broadcast, whatever its fingerprint, and is sent before the loop sleeps or compiles again |
| `CompilationLoop.RecordedBeforeSend` | crates/portus-controller/src/compiler.rs:2335-2384 | When a broadcast is sent its version, fingerprint and the slice fingerprint of every live Gateway, and of no other, are on record |
| `CompilationLoop.AcknowledgedAtRest` | crates/portus-controller/src/compiler.rs:2335-2358 | At rest the slice streamed to every live Gateway has the recorded fingerprint, if the configuration sent last equals the one compiled last up to order |
| `Debounce.WaitUntilQuiet` | crates/portus-controller/src/compiler.rs:2265-2293 | The compile starts at the first quiet moment after the wake-up, or at the first arrival past the cap, always before cap plus quiet period, and absorbs every notification up to the start and none after |
| `Slicing.ConfigFingerprint` | crates/portus-controller/src/compiler.rs:2232-2263 | The ten accumulation loops compute the wrapping sum of the element hashes |
| `Slicing.RouteChangeNoticed` | crates/portus-controller/src/compiler.rs:2232-2263 | Replacing one route changes the fingerprint exactly when the two routes hash differently |
| `Slicing.BackendChangeNoticed` | crates/portus-controller/src/compiler.rs:2232-2263 | Replacing one backend group changes the fingerprint exactly when the two hash differently |
| `Slicing.ListenerChangeNoticed` | crates/portus-controller/src/compiler.rs:2232-2263 | Replacing one listener changes the fingerprint exactly when the two hash differently |
| `Slicing.TlsChangeNoticed` | crates/portus-controller/src/compiler.rs:2232-2263 | Replacing one TLS passthrough route changes the fingerprint exactly when the two hash differently |
| `Slicing.TcpChangeNoticed` | crates/portus-controller/src/compiler.rs:2232-2263 | Replacing one TCP route changes the fingerprint exactly when the two hash differently |
| `Slicing.UdpChangeNoticed` | crates/portus-controller/src/compiler.rs:2232-2263 | Replacing one UDP route changes the fingerprint exactly when the two hash differently |
| `Slicing.TlsHostnameChangeNoticed` | crates/portus-controller/src/compiler.rs:2232-2263 | Replacing one TLS hostname changes the fingerprint exactly when the two hash differently |
| `Slicing.BackendTlsChangeNoticed` | crates/portus-controller/src/compiler.rs:2232-2263 | Replacing one backend TLS entry changes the fingerprint exactly when the two hash differently |
| `Slicing.FederationChangeNoticed` | crates/portus-controller/src/compiler.rs:2232-2263 | Replacing one federation changes the fingerprint exactly when the two hash differently |
| `Slicing.IssuerKeysChangeNoticed` | crates/portus-controller/src/compiler.rs:2232-2263 | Replacing one issuer key set changes the fingerprint exactly when the two hash differently |
| `Slicing.TransportSwapUnnoticed` | crates/portus-controller/src/compiler.rs:2254-2255 | Exchanging the TCP and UDP lists leaves the fingerprint as it is |
| `Slicing.CollectWanted` | crates/portus-controller/src/compiler.rs:87-120 | The loops collect the Services referenced by the routes |
| `Slicing.ScopeConfig` | crates/portus-controller/src/compiler.rs:54-157 | The slice of one Gateway with its own fingerprint |
| `Slicing.ScopeIdempotent` | crates/portus-controller/src/compiler.rs:54-157 | Slicing a slice changes nothing |
| `Slicing.SlicesDisjoint` | crates/portus-controller/src/compiler.rs:54-157 | Slices of distinct Gateways share no route, listener, passthrough, TCP or UDP route |
| `Slicing.SliceExact` | crates/portus-controller/src/compiler.rs:54-157 | A slice holds exactly the Gateway's own listeners, TLS, TCP and UDP entries, the hostnames of its TLS listeners, the federations its routes fan out to and the keys of the issuers they trust, under its own fingerprint |
| `Slicing.RoutesConserved` | crates/portus-controller/src/compiler.rs:54-157 | Every route is in its owner's slice as often as in the configuration, and in no other slice |
| `Slicing.PoolsExact` | crates/portus-controller/src/compiler.rs:87-127 | A pool is in the slice exactly when it is compiled and referenced as primary, weighted, mirror or external authorization Service or by a TLS, TCP or UDP route of that Gateway |
| `Slicing.FederationsServedExactly` | crates/portus-controller/src/compiler.rs:134-136 | Slicing keeps a pool for every federation member if and only if the Gateway's routes also name those members' Services directly |
| `Slicing.FederationMemberLost` | crates/portus-controller/src/compiler.rs:87-136 | A configuration whose slice keeps a federation and loses its member's pool |
| `Slicing.AcknowledgementAgrees` | crates/portus-controller/src/grpc_server.rs:113-121 | The slice streamed from a stamped broadcast has the fingerprint the loop recorded before stamping |
| `Slicing.OrderInvisible` | crates/portus-controller/src/compiler.rs:2232-2263 | Permuting any list of the configuration changes neither the global fingerprint nor any slice fingerprint |
| `Slicing.PoolOrderPermutes` | crates/portus-controller/src/compiler.rs:1098-1102 | Another order of the hash set of Services permutes the compiled configuration |
| `Slicing.ForeignRouteInvisible` | crates/portus-controller/src/grpc_server.rs:111-121 | A route of another Gateway, added anywhere, leaves the slice and its fingerprint as they were |
| `L4Routes.CompileL4Routes` | crates/portus-controller/src/compiler.rs:1261-1344 | The loops, sort, dedup and emission compute the programmed L4 routes, and the backend set holds every backend of every route, losers included |
| `L4Routes.ConflictRule` | crates/portus-controller/src/compiler.rs:1304-1344 | At most one route per listener, listeners in order; a listener appears exactly when its winner has a backend, with that winner's backends |
| `L4Meaning.ProgrammedExactly` | crates/portus-controller/src/compiler.rs:1261-1344 | Listeners in order of namespace, Gateway and name, each at most once; every listener gets the first backend and all weighted backends of a route attached to it that no attached route precedes, and nothing when that route has no backend or none is attached |
| `L4Meaning.CandidatesExactly` | crates/portus-controller/src/compiler.rs:1280-1302 | A route is a candidate exactly where an accepted parentRef names a stored Gateway with an accepted listener of that protocol, section and port |
| `L4Meaning.BackendsExactly` | crates/portus-controller/src/compiler.rs:1273-1279 | Every backend of every route gets a pool, losers included, and nothing else does |
| `L4Routes.WinnerIsOldest` | crates/portus-controller/src/compiler.rs:1304-1318 | The winner is a candidate of the listener and none is older: timestamped first, then older, then by name |
| `L4Routes.OrderFreeExactly` | crates/portus-controller/src/compiler.rs:1261-1344 | The output is independent of the order of the routes if and only if routes tied for the oldest on a listener would be programmed alike |
| `L4Routes.DistinctPairsAgree` | crates/portus-controller/src/compiler.rs:1304-1318 | Distinct (timestamp, name) pairs suffice |
| `Winners.WinnerAntisymmetric` | crates/portus-controller/src/policy_types.rs:461-479 | Of two contenders one wins, and both do exactly when they are equally old and print alike |
| `Winners.WinnerTransitive` | crates/portus-controller/src/policy_types.rs:461-479 | Winning is transitive |
| `Winners.DisplayInjective` | crates/portus-controller/src/store.rs:676-680 | Keys whose namespaces hold no slash print differently |
| `Winners.ChampionUnique` | crates/portus-controller/src/policy_types.rs:461-479 | Any two tournaments between the same contenders have the same champion |
| `Winners.ResolveConflicts` | crates/portus-controller/src/reconcilers/policy_common.rs:58-106 | With one contender at most the policy being reconciled is accepted and nothing else changes; otherwise exactly the champion among the target's policies is, and other targets keep their flags |
| `Winners.OneAccepted` | crates/portus-controller/src/reconcilers/policy_common.rs:98-106 | With two contenders or more, exactly one policy of the target is accepted |
| `Winners.ChampionIsOldest` | crates/portus-controller/src/reconcilers/policy_common.rs:86-106 | The champion is the oldest contender, whatever order the map is iterated in |
| `Winners.AcceptedExactly` | crates/portus-controller/src/reconcilers/policy_common.rs:58-106 | After the conflict is resolved a policy of the target is accepted exactly when none of the target precedes it (older, timestamped before not, then by printed name), whatever the order of the map; others keep their flags |
| `Winners.WinnerExactly` | crates/portus-controller/src/policy_types.rs:461-479 | A policy wins exactly when the other does not precede it |
| `Winners.FoldPicks` | crates/portus-controller/src/compiler.rs:1463-1479 | Folding `pick_oldest` keeps a first policy without timestamp, and otherwise yields the first of the earliest-timestamped ones |
| `Winners.OldestExactly` | crates/portus-controller/src/compiler.rs:1463-1479 | The oldest is picked if and only if the first policy has a timestamp or none has |
| `Winners.BackendTlsFor` | crates/portus-controller/src/compiler.rs:1155-1190 | The selection loop: a policy naming the port's section always beats a Service-wide one, and the fold decides within each scope |
| `Winners.TlsForExactly` | crates/portus-controller/src/compiler.rs:1155-1190 | A policy is found exactly when an accepted one covers the Service and port, it is one for the port's section if there is any, and no timestamped one of its scope is older if it has a timestamp |
| `LeaderElection.RunKeeps` | crates/portus-controller/src/leader_election.rs:53-205 | Every run keeps: a fresh controller holds the lease, renewed at or after its last success, for the full duration |
| `LeaderElection.FreshLeadersUnique` | crates/portus-controller/src/leader_election.rs:53-205 | In every run from any lease not dated in the future, two controllers are never both fresh, dating successes by the renew time written, and a fresh one is the holder |
| `LeaderElection.UniqueByReturnExactly` | crates/portus-controller/src/leader_election.rs:53-134 | Dated by the return of the call, which may come a delay after the stamp, successes younger than an age are one controller's if and only if the age is at most 15 seconds less that delay |
| `LeaderElection.HolderChangesWhenFree` | crates/portus-controller/src/leader_election.rs:53-205 | The holder changes only from a missing, released, never renewed or expired lease, or by its own release |
| `LeaderElection.AttemptExactly` | crates/portus-controller/src/leader_election.rs:53-155 | An undisturbed attempt acquires or renews exactly when there is no lease or it is its own, released, never renewed or run out (missing duration 15 seconds, negative none), and counts a transition exactly when it takes over |
| `LeaderElection.ReleaseHandsOver` | crates/portus-controller/src/leader_election.rs:157-205 | After a graceful shutdown of the holder, which keeps the bookkeeping of the lease, any other controller acquires at once |
| `LeaderElection.UniqueExactly` | crates/portus-controller/src/leader_election.rs:53-205 | Fresh leaders of different identities are unique in every run if and only if a patch lands only on the lease that was read and keeps the fields it omits |
| `LeaderElection.StalePatchTwoLeaders` | crates/portus-controller/src/leader_election.rs:58-110 | Without atomic get-then-patch, whatever becomes of omitted fields, a run with two fresh leaders |
| `LeaderElection.DroppedHolderTwoLeaders` | crates/portus-controller/src/leader_election.rs:63-83 | If omitted fields are dropped, atomic or not, the renew patch gives the lease away: a run with two fresh leaders |
| `LeaderElection.EqualIdentitiesTwoLeaders` | crates/portus-controller/src/leader_election.rs:63-83 | With equal identities, a run with two fresh leaders |
| `LeaderElection.RenewalLoop` | crates/portus-controller/src/leader_election.rs:264-332 | Leadership goes false exactly at the first third consecutive non-success and never returns, 15 to 105 seconds after the last success |
| `LeaderElection.StepsDownLate` | crates/portus-controller/src/leader_election.rs:264-332 | The 105 second bound is reached |
| `LeaderElection.FlagsOverlap` | crates/portus-controller/src/leader_election.rs:264-332 | At every time from 15 to 105 seconds after a controller's last success, a run in which its leadership flag is still up while another controller has acquired the lease |
| `Status.ConditionsEqual` | crates/portus-controller/src/status.rs:70-85 | Equal but for the transition times |
| `Status.CoresExactly` | crates/portus-controller/src/status.rs:70-85 | Type, status, reason, message and observed generation are compared, in order, and nothing else |
| `Status.WriteIgnoresTimes` | crates/portus-controller/src/status.rs:117-137 | Whether a reconcile writes depends on the flattened conditions, never on transition times |
| `Status.OwnExactly` | crates/portus-controller/src/status.rs:106-114 | The conditions compared are those of the controller's own entries, entry by entry |
| `Status.PatchKeepsForeignExactly` | crates/portus-controller/src/status.rs:92-137 | A patch keeps the entries other controllers have, in order, if and only if they are the ones it was computed from |
| `Status.OursLast` | crates/portus-controller/src/status.rs:92-103 | The controller's own entries come after all the others |
| `Status.ForeignSurvives` | crates/portus-controller/src/status.rs:92-137 | In every schedule of separate reads and patches that land on the foreign entries they saw, a controller that takes no turn finds its entries as they were, however old the reads |
| `Status.OneWriteEach` | crates/portus-controller/src/status.rs:67-137 | In every schedule of separate reads and patches, where a read is no older than the reader's own last patch and a patch lands on the foreign entries it saw, each controller writes at most once |
| `Status.TurnSettles` | crates/portus-controller/src/status.rs:67-137 | In those schedules every controller through with a turn has the conditions it wants |
| `Status.TurnShape` | crates/portus-controller/src/status.rs:117-137 | A turn is one read and one end, of that controller alone; only a patch writes, one status each |
| `Status.OneWriteExactly` | crates/portus-controller/src/status.rs:67-137 | Each controller writes at most once in every schedule if and only if reads are no older than the reader's own last patch and patches land on the foreign entries they saw |
| `Status.LostEntryTwoWrites` | crates/portus-controller/src/status.rs:92-137 | Without the landing rule, however fresh the reads, a run in which a patch drops another controller's entry and that controller writes twice |
| `Status.StaleReadTwoWrites` | crates/portus-controller/src/status.rs:106-137 | With a read older than the reader's own last patch, a run in which it writes twice though no foreign entry is touched |
| `Status.UpToDateExactly` | crates/portus-controller/src/status.rs:106-137 | A reconcile brings the entries up to date, parents included, if and only if they were already or the flattened conditions differ |
| `Status.ParentChangeMissed` | crates/portus-controller/src/status.rs:106-137 | A changed parentRef with equal conditions is not written |
| `Programmed.ConfigStore.SetCompiledSlice` | crates/portus-controller/src/store.rs:334-348 | The slice is recorded, the replaced one kept for the grace window, and an event published for exactly the Gateways whose answer moved |
| `Programmed.ConfigStore.RemoveCompiledSlice` | crates/portus-controller/src/store.rs:351-356 | The slice and its grace are forgotten, and exactly the moved answers reported |
| `Programmed.ConfigStore.RecordApplied` | crates/portus-controller/src/store.rs:402-426 | Rejects fingerprint 0 and new nodes at the cap of 1000; reports exactly the Gateways, joined and left, whose answer moved |
| `Programmed.ConfigStore.ForgetDataPlane` | crates/portus-controller/src/store.rs:383-390 | The node is forgotten and exactly the moved answers reported |
| `Programmed.ConfigStore.ExpireProgrammedGrace` | crates/portus-controller/src/store.rs:362-376 | Expired slices are pruned and a lapse is reported |
| `Programmed.PruningInvisible` | crates/portus-controller/src/store.rs:282-318 | Pruning expired slices moves nobody's answer |
| `Programmed.ProgrammedExactly` | crates/portus-controller/src/store.rs:282-318 | A Gateway is Programmed exactly when something was compiled, it has a slice, and a data plane of it runs that slice or one replaced less than ten seconds ago |
| `Programmed.SliceSet` | crates/portus-controller/src/store.rs:334-348 | A changed slice puts the replaced one in grace and drops those whose grace is over; an unchanged one changes nothing; no other Gateway is touched |
| `Programmed.SliceRemoved` | crates/portus-controller/src/store.rs:351-356 | A departed Gateway has no slice, none in grace, and is not Programmed; the others keep theirs |
| `Programmed.CapExactly` | crates/portus-controller/src/store.rs:393-396 | A node is accepted exactly when the record stays within 1000 nodes |
| `Programmed.RecompileKeepsProgrammed` | crates/portus-controller/src/store.rs:334-348 | A recompile never takes Programmed away at once |
| `Programmed.GraceWindow` | crates/portus-controller/src/store.rs:282-318 | A data plane on the slice just replaced keeps its Gateway Programmed for the whole grace window |
| `Programmed.LapseLeavesExpired` | crates/portus-controller/src/store.rs:282-318 | An answer that lapsed because time passed leaves an expired slice behind |
| `Programmed.ZeroSliceUnprogrammed` | crates/portus-controller/src/store.rs:402-405 | A Gateway whose slice sums to 0 is never Programmed once its grace is over |
| `Programmed.ReconnectBeforeCompile` | crates/portus-controller/src/compiler.rs:2378-2380 | A data plane that reconnects before the first compile with what it will produce is found Programmed, and no event was published |
| `ProgrammedRuns.LapsePending` | crates/portus-controller/src/store.rs:320-376 | Operations are read, change, and read-and-publish steps. In every run of them with scheduled checks, one at a time and events heard before anything else happens: between operations a Programmed Gateway is believed to be, and a listener that believes a lapsed one Programmed has a check still due for a slice in grace, unless the Gateway departed with the lapse untold |
| `ProgrammedRuns.ToldAtRest` | crates/portus-controller/src/store.rs:320-376 | In those runs, once the scheduled checks have fired, what a listener was told is the answer if and only if the Gateway did not depart with a lapse untold |
| `ProgrammedRuns.ClosingExactly` | crates/portus-controller/src/store.rs:323-330 | However operations overlap, closing one leaves the listener right exactly when it publishes or the listener was told what the operation read before |
| `ProgrammedRuns.SchedulesExactly` | crates/portus-controller/src/compiler.rs:2335-2356 | A check is scheduled ten seconds ahead exactly when a recorded slice differs from the one there was |
| `ProgrammedRuns.ConcernsExactly` | crates/portus-controller/src/store.rs:383-425 | Operations on nodes compare the answers of exactly the Gateways whose data planes they touch |
| `ProgrammedRaces.ToldExactly` | crates/portus-controller/src/store.rs:320-425 | Once checks have fired, what a listener was told is the answer unless the Gateway departed with a lapse untold: in every run, if and only if operations are one at a time and events are heard before anything else happens |
| `ProgrammedRaces.Crossing` | crates/portus-controller/src/store.rs:323-425 | Of any two node operations that both read the answer, the first to close moving it and the second moving it back, the second tells nothing and the listener keeps the wrong answer |
| `ProgrammedRaces.GainUntold` | crates/portus-controller/src/store.rs:383-425 | A data plane leaves while another reports: a run after which a Programmed Gateway is believed not to be, for good |
| `ProgrammedRaces.LossUntold` | crates/portus-controller/src/store.rs:383-425 | A node's former session ends while it reports: a run after which a Gateway without data plane is believed Programmed, for good |
| `ProgrammedRaces.LateUntold` | crates/portus-controller/src/store.rs:323-348 | With events heard late, operations one at a time: a run after which a Programmed Gateway is believed not to be |
| `ProgrammedRuns.CheckReportsExactly` | crates/portus-controller/src/store.rs:362-376 | In every run, however operations overlap, a check publishes if and only if the grace of a replaced slice had ended after the last pruning and by its own, and the Gateway is not Programmed when it closes |
| `ProgrammedRaces.RecompileHidesLapse` | crates/portus-controller/src/store.rs:334-348 | A run in which a recompile between lapse and check prunes the evidence, and the check publishes nothing |
| `ProgrammedRaces.DepartureLosesLapse` | crates/portus-controller/src/store.rs:351-356 | A run in which a Gateway departs between lapse and check, and the listener is never told |
| `Sessions.RecordedExactly` | crates/portus-controller/src/grpc_server.rs:32-43 | In every run of connects, reports and dropped streams, a node is recorded with what it applied exactly when no stream of its id was dropped since its last accepted report |
| `Sessions.CapKept` | crates/portus-controller/src/grpc_server.rs:80-92 | In every run at most 1000 nodes are recorded |
| `Sessions.LiveRecordedExactly` | crates/portus-controller/src/store.rs:383-390 | In every run a node that reported on a stream still open is recorded, if and only if nodes connect only when their former stream was dropped |
| `Sessions.OldDropForgets` | crates/portus-controller/src/grpc_server.rs:39-41 | A node reconnects, then its former stream is dropped: the live stream's record goes with it |
| `Programmed.NoSilentGain` | crates/portus-controller/src/store.rs:282-318 | Time alone never makes a Gateway Programmed |
| `Programmed.FingerprintStoreSilent` | crates/portus-controller/src/compiler.rs:2378-2380 | The unreported store of the global fingerprint moves an answer if and only if it goes to or from 0 while the Gateway would otherwise be Programmed |

## Left out

- Preservation.CompileThenMatch: for hosts where some dot leaves 9000 bytes or more behind it, listener scores are not precedence; Listeners.SelectionExact gives the exact condition.
- LeaderElection.FreshLeadersUnique: needs atomic get-then-patch, retained fields and distinct identities; LeaderElection.UniqueExactly shows the first two are needed, LeaderElection.EqualIdentitiesTwoLeaders the third.
- CompilationLoop.AcknowledgedAtRest: a compile whose fingerprint collides with the one sent last is withheld; then recorded and streamed slices can differ.
- FastMatcher.OtherKindsAgreeExactly: for at most one path per route and no empty prefix; EmptyPrefixes.SameRouteExactly includes empty prefixes.
- EmptyPrefixes.SameRouteExactly: for at most one path per route, as the compiler emits them; with several, the fast matcher reads the first only.
- Status.OneWriteEach: needs a read no older than the reader's own last patch, and a patch that lands on the foreign entries it saw; Status.OneWriteExactly shows both are needed, and the source enforces neither.
- ProgrammedRuns.LapsePending: for operations one at a time and events heard before anything else happens; the source enforces neither, and ProgrammedRaces.ToldExactly shows both are needed.
- ProgrammedRuns.ToldAtRest: for the same runs; and it excludes fingerprint stores that move the answer, which publish nothing; Programmed.FingerprintStoreSilent gives the exact condition.
- CompileOrders.ModelledOrderBlind: the parts of the configuration that are not modelled are taken to be a function of the store.
- Sessions.RecordedExactly: connects, reports and drops are one step each; how the steps of overlapping operations interleave is modelled in ProgrammedRuns.
- Debounce.WaitUntilQuiet: no scheduling delay or timer slack.
- LeaderElection.RenewalLoop: no scheduling delay or timer slack.
- Scores, ports and weights are unbounded integers; the `u32` score would wrap for hostnames of 4 GiB, the `u64` version after 2^64 broadcasts.
- Compiled messages hold the fields the modelled code reads; the remaining fields are only copied along.
- TLS passthrough route compilation, listeners, endpoints and app protocols: copies and lookups.
- TLS material, Secrets, client validation, provider credentials and key sets: lookups and copies.
- AI-specific decoration of routes: per-field copying on top of the HTTP loop modelled here.
- Regular expressions, query parameters and mirrors in matching: the matcher does not interpret them.
- The reconcilers that fill the store from Kubernetes objects, watches, server-side apply, gRPC streams: only their effect as steps on state and time.
- The aggregate `is_programmed` over all Gateways: the per-Gateway answer is modelled.
