# nginx-resolution-tree in Dafny

A model of the resolution tree of nginx-resolution-tree. Containers hand in
directives, each a dict whose `"signature"` is the string
`alias:ip:port:server_name:location`. The Nrt (the root) keeps the directives,
unique by signature. Resolving turns them into Listen objects, one per distinct
`ip:port` address. A Listen builds its ServerNames, one per domain. A ServerName
keeps its Locations, one per path. A Location keeps the aliases (containers) that
claim it, and it is valid when exactly one does. The model also covers the unused
LocationBlock with its allow and deny rule lists.

Every setter of the source first validates its argument: None gives ValueError,
a wrong type gives TypeError, a malformed value gives ValueError. What it then
stores depends on the setter:

- the list setters (`Location.alias`, `Listen.directives`, `LocationBlock.allow`
  and `LocationBlock.deny`) append the value only if it is absent;
- `Nrt.directives` appends a directive only if its signature is new;
- the keyed setters (`ServerName.locations` by path, `Listen.server_names` by
  domain and `Nrt.listen` by address) store the object only under a new key;
- `Location.location` overwrites the path;
- `ServerName.domain` is bound once, and a second assignment raises ValueError;
- `LocationBlock.location` would replace the location, but as written it raises
  NameError (see Findings).

The model keeps these error paths. Dynamic Python values are
`PyValues.Value`. An argument that must be an instance of a class is
`Arg<T> = Instance(obj) | Plain(value)`. A statement that may raise returns a
`Status`.

Module layout, following the source files:

- `pyvalues.dfy`: argument values, exceptions, the shared None/type checks.
- `lists.dfy`: insert-if-absent lists.
- `text.dfy`: `int(s)`, `"%s" % n`, `str.split` and `str.join`.
- `signatures.dfy`: the signature grammar of `nrt/nrt.py` and `nrt/listen.py`.
  It also holds the unpacking of a signature into a `Route` of five fields.
- `addresses.dfy`: the IPv4 check, the port range and the constructor checks of
  `Listen`, and the `address` text.
- `locations.dfy`: `Location` (`nrt/location.py`).
- `treespec.dfy`: the Listen/ServerName/Location levels as values, with the
  properties of `Listen._build`.
- `servernames.dfy`: `ServerName` (`nrt/servername.py`).
- `listens.dfy`: `Listen` (`nrt/listen.py`).
- `nrts.dfy`: `Nrt` (`nrt/nrt.py`).
- `locationblocks.dfy`: `LocationBlock` (`nrt/blocks/location/base.py`).

The classes `Location`, `ServerName`, `Listen`, `Nrt` and `LocationBlock` hold
the fields the source mutates. Their setters are methods. Each method's new
state is stated either as a function on values of its old state, or directly in
terms of the old fields (`SetAlias`, `SetLocations`, `SetServerNames`,
`SetListen`). The loops and the block setters are proved against functions:

- `Listen.Build` against `TreeSpec.BuildV`;
- `Nrt.Resolve` against `Nrts.ResolveV`;
- `LocationBlock.SetAllow` against `LocationBlocks.AssignAllow`.

The properties are proved as lemmas about those functions.

Some source members call members that do not exist; for those, the model takes
the meaning the tests fix:

- `nrt/listen.py:76-77` calls `ServerName.directives` and `ServerName._build`.
  The model reads them as "get or create the Location for the path field, then
  add the alias field" (`ServerName.AddDirective`).
- `nrt/listen.py:125` reads `ServerName.is_valid`. The model reads it as "every
  Location is valid".

Source behaviour followed where the tests say otherwise:

- `Nrt.is_valid` raises NotImplementedError, as the source does.
- The tests call `Nrt._build`, but the model follows `Nrt.resolve`.

## Model

| member | source | states |
|---|---|---|
| PyValues.RequireString | nrt/location.py:43-46 | None raises ValueError, a non-string raises TypeError, a string passes |
| PyValues.RequireInstance | nrt/nrt.py:106-109 | None raises ValueError, a plain value raises TypeError, an instance passes |
| Lists.AppendIfAbsent | nrt/location.py:47-48 | the value ends up in the list; the old list stays as a prefix; at most the value is added, and it goes last; no duplicate is introduced |
| Lists.AppendIfAbsentPresent | nrt/location.py:47-48 | adding a present value changes nothing (both directions); adding twice equals adding once |
| Lists.AppendAllContents | nrt/location.py:47-48 | offering a sequence keeps the list duplicate-free; afterwards the list holds exactly the old elements and the offered ones |
| Lists.OneDistinct | nrt/tests/test_location.py:29-42 | starting from empty, one element remains iff something was offered and every offered value is the same |
| Text.ParseInt | nrt/listen.py:32 | `int(s)` succeeds exactly on an optional sign followed by one or more ASCII digits |
| Text.IntTextRoundTrip | nrt/listen.py:32 | `int("%s" % n) == n` for every int |
| Text.IntText | nrt/listen.py:115 | `"%s" % n` for an int: a minus sign for negatives, then the decimal digits without leading zeros (read back by `Text.IntTextRoundTrip` and `Text.DecimalTextValue`) |
| Text.Split | nrt/nrt.py:123 | `str.split(sep)`: never empty, pieces free of the separator (`Text.SplitPiecesFree`), undone by `Text.Join` (`Text.JoinSplit`) |
| Text.Join | nrt/listen.py:67 | `sep.join(pieces)` for at least one piece; `Text.Split` undoes it on separator-free pieces (`Text.SplitJoin`) |
| Text.DecimalTextValue | nrt/listen.py:115 | the printed digits of n read back as n; the printed text is canonical |
| Text.CanonicalRoundTrip | nrt/listen.py:49-59 | a canonical numeral is the printed text of its own value |
| Text.JoinSplit | nrt/nrt.py:123 | joining the pieces of `s.split(sep)` with sep gives s back |
| Text.SplitJoin | nrt/nrt.py:123 | splitting a join of separator-free pieces gives the pieces back |
| Text.SplitPiecesFree | nrt/nrt.py:123 | no piece of a split contains the separator |
| Signatures.SignatureMatches | nrt/nrt.py:58 | the signature regex, also compiled at `nrt/listen.py:93` and applied at `nrt/nrt.py:68` and `nrt/listen.py:103`; characterised by `Signatures.SignatureShape` |
| Signatures.ScanShape | nrt/nrt.py:58 | the scanner for the grammar from field k accepts exactly the colon pieces that describe fields k..4 |
| Signatures.SignatureShape | nrt/nrt.py:58 | the grammar matches exactly when the string, minus one final newline, splits into five non-empty pieces in the classes alias `\w`, ip `[\w.]`, port `\d`, server `[\w.]`, location `[\w/]` |
| Signatures.AcceptedFields | nrt/nrt.py:123 | an accepted signature splits into five non-empty, colon-free fields that join back into it; the port is all digits |
| Signatures.Decode | nrt/nrt.py:123 | the unpacked route encodes back to the signature; its fields are non-empty; its port is digits; its ip has no colon |
| Signatures.DecodeEncode | nrt/nrt.py:123 | unpacking undoes packing for accepted routes with colon-free fields |
| Signatures.CheckDirective | nrt/nrt.py:60-69 | passes iff the value is a directive the grammar accepts; None, a missing signature or a non-matching signature raise ValueError; a non-dict or a non-string signature raise TypeError |
| Addresses.DottedIsIPv4 | nrt/listen.py:49-59 | every quadruple of numbers 0..255 prints as an accepted address |
| Addresses.IPv4IsDotted | nrt/listen.py:49-59 | every accepted address is the dotted text of its four group values |
| Addresses.IsIPv4 | nrt/listen.py:38-59 | the `inet_pton(AF_INET, ip)` check: four dot-separated octets; equal to the dotted texts of 0..255 quadruples by `Addresses.DottedIsIPv4` and `Addresses.IPv4IsDotted` |
| Addresses.IPv4Chars | nrt/listen.py:49-59 | an accepted address has only digits and dots, so no colon |
| Addresses.IPv4Zero | nrt/listen.py:24 | the default ip "0.0.0.0" is accepted |
| Addresses.IPv4OneTwoThreeFour | nrt/tests/test_listen.py:26 | "1.2.3.4" is accepted |
| Addresses.IPv4Nines | nrt/tests/test_listen.py:225-237 | "999.999.999.999" is rejected |
| Addresses.IPv4HighGroup | nrt/tests/test_listen.py:312-322 | "10.11.12.256" is rejected |
| Addresses.CheckListen | nrt/listen.py:28-35 | the constructor passes iff the port is int or str, the ip is an IPv4 string and the port is within 1..65535; TypeError exactly for a port of another type or an ip that is not None and not a string; ValueError otherwise |
| Addresses.PortOkText | nrt/listen.py:32-33 | a port that passed the range check is written without a colon |
| Addresses.PortText | nrt/listen.py:115 | the port as `%s` prints it: the decimal text of an int port, a text port verbatim |
| Addresses.Address | nrt/listen.py:115 | `"%s:%s" % (ip, port)`; it splits back into its parts (`Addresses.AddressParts`) and is injective (`Addresses.AddressInjective`) |
| Addresses.AddressParts | nrt/listen.py:115 | the address of an accepted ip splits back into the ip and the port text |
| Addresses.AddressInjective | nrt/listen.py:115 | two addresses are equal iff the ips are equal and the port texts are equal |
| Addresses.AddressIntPort | nrt/listen.py:115 | for an int port, the port part of the address reads back as the port |
| Addresses.ListenDefaults | nrt/listen.py:24-25 | the defaults pass and give the address "0.0.0.0:80" |
| Addresses.ListenTypeErrors | nrt/tests/test_listen.py:211-252 | an int ip or a list port raise TypeError |
| Addresses.ListenBadIp | nrt/tests/test_listen.py:225-238 | a non-IPv4 ip raises ValueError |
| Addresses.ListenBadPort | nrt/tests/test_listen.py:253-266 | ports -1, 0 and 77777 raise ValueError |
| Locations.CheckPath | nrt/location.py:72-79 | passes iff the value is a string framed by slashes; None, "" and unframed strings raise ValueError; a non-string raises TypeError |
| Locations.PathExamples | nrt/tests/test_location.py:395-423 | "/" and "/location/" are accepted; "/wrong", "wrong/", "" and "wrong" raise ValueError; None raises ValueError; 1 raises TypeError |
| Locations.Location.constructor | nrt/location.py:26-27 | a new Location has its path and no aliases |
| Locations.Location.SetAlias | nrt/location.py:43-48 | the status is the None/type check; a string alias is appended if absent; the path is unchanged; aliases stay duplicate-free |
| Locations.Location.SetLocation | nrt/location.py:72-80 | the status is the path check; the path is overwritten only when the check passes; aliases are unchanged |
| Locations.Location.IsValid | nrt/location.py:56 | valid iff exactly one alias is stored |
| Locations.LocValid | nrt/location.py:56 | `len(alias) == 1` on the value of a Location; `Locations.ValidMeansOneContainer` states what it means |
| Locations.NewLocation | nrt/location.py:22-27 | construction fails exactly when the path check raises, with the same error; otherwise the object is new, has the path and has no aliases |
| Locations.ValidMeansOneContainer | nrt/location.py:56 | for duplicate-free aliases: valid iff some alias is stored and every stored alias is the same container |
| Locations.RepeatedAliasValid | nrt/tests/test_location.py:29-42 | offering one alias n > 0 times gives a valid Location |
| Locations.TwoAliasesInvalid | nrt/tests/test_location.py:451-463 | two different aliases make the Location invalid |
| TreeSpec.FindPath | nrt/servername.py:72 | the result is the first position holding the path, or the length when the path is absent |
| TreeSpec.ServerWFSnoc | nrt/servername.py:72-73 | appending a Location whose framed path is new keeps the paths unique |
| TreeSpec.ServerWFOffer | nrt/location.py:47-48 | adding an alias to a stored Location keeps the invariant |
| TreeSpec.AbsorbV | nrt/listen.py:76-77 | raises exactly when the path is absent and not framed, and then raises ValueError; at most one Location is added |
| TreeSpec.AbsorbVShape | nrt/listen.py:76-77 | afterwards the path is stored with the alias; the other Locations keep their path and aliases; a new Location goes last, holding only the alias; the invariant is kept |
| TreeSpec.BuildV | nrt/listen.py:66-77 | the loop of `_build` over the routes, stopping at the first raise; its properties are `TreeSpec.BuildKeys`, `BuildPass`, `BuildIdempotent`, `BuildSound` and `BuildValidIff` |
| TreeSpec.BuildStep | nrt/listen.py:67-77 | the domain is added to the keys and stays even when the step raises; only ValueError can be raised |
| TreeSpec.StepShape | nrt/listen.py:67-77 | other domains are untouched; a passing step records the route; the invariant is kept |
| TreeSpec.BuildStops | nrt/listen.py:66-77 | once a prefix raises, the remaining directives change nothing |
| TreeSpec.BuildKeys | nrt/listen.py:66-77 | building only adds domains named by the routes; a successful build adds all of them |
| TreeSpec.BuildWF | nrt/listen.py:66-77 | building keeps the invariants of the setters |
| TreeSpec.StepPass | nrt/listen.py:76-77 | in a well-formed tree a step passes iff the route's path is framed by slashes |
| TreeSpec.BuildPass | nrt/listen.py:66-77 | the build passes iff every route's path is framed by slashes; otherwise it raises ValueError |
| TreeSpec.StepKeeps | nrt/listen.py:76-77 | a recorded route stays recorded after a later successful step |
| TreeSpec.BuildCovers | nrt/listen.py:66-77 | after a successful build every route is recorded |
| TreeSpec.StepNoop | nrt/listen.py:76-77 | offering a route already recorded changes nothing |
| TreeSpec.AllRecordedNoop | nrt/listen.py:66-77 | building with routes that are all already recorded changes nothing |
| TreeSpec.BuildIdempotent | nrt/listen.py:66-77 | building twice from the same directives equals building once |
| TreeSpec.AbsorbSound | nrt/listen.py:76-77 | absorbing a route keeps every stored alias traceable to a route, and keeps every Location occupied |
| TreeSpec.SoundStep | nrt/listen.py:67-77 | the same for one step of the build over the whole tree |
| TreeSpec.BuildSound | nrt/listen.py:66-77 | a build from empty stores only aliases that some route supplies for that domain and path, and never leaves a Location without an alias |
| TreeSpec.ConsistentValid | nrt/listen.py:124-127 | if routes with the same domain and path always name the same container, every Location is valid |
| TreeSpec.ValidConsistent | nrt/listen.py:124-127 | a tree that records every route and whose Locations are all valid comes only from consistent routes |
| TreeSpec.BuildValidIff | nrt/listen.py:118-127 | a Listen built successfully from empty is valid iff its routes are consistent |
| ServerNames.CheckDomain | nrt/servername.py:43-48 | passes iff the domain is a non-empty string; None and "" raise ValueError; a non-string raises TypeError |
| ServerNames.ServerName.ValidView | nrt/servername.py:72-73 | the Locations of a ServerName have framed, pairwise distinct paths and duplicate-free aliases |
| ServerNames.ServerName.constructor | nrt/servername.py:24-25 | a new ServerName has its domain and no Locations |
| ServerNames.ServerName.SetDomain | nrt/servername.py:41-42 | assigning the domain again raises ValueError |
| ServerNames.ServerName.IndexOf | nrt/servername.py:72 | the returned index is where the path is first stored, or the count of Locations when it is absent |
| ServerNames.ServerName.SetLocations | nrt/servername.py:65-73 | the status is the None/instance check; a Location whose path is new is appended; otherwise the Locations are unchanged |
| ServerNames.ServerName.AddAliasAt | nrt/listen.py:76-77 | only the Location at the index gains the alias |
| ServerNames.ServerName.AddLocation | nrt/listen.py:76-77 | a framed new path adds a new Location holding only the alias, and it goes last; an unframed path raises ValueError and nothing changes |
| ServerNames.ServerName.AddDirective | nrt/listen.py:76-77 | the ServerName takes the directive exactly as `TreeSpec.AbsorbV` says; existing Locations keep their order; created ones are new |
| ServerNames.ServerName.IsValid | nrt/listen.py:125 | true iff every Location is valid |
| ServerNames.NewAliasedLocation | nrt/listen.py:76-77 | fails exactly for a path that is not framed; otherwise returns a new Location holding the path and the alias |
| ServerNames.NewServerName | nrt/servername.py:20-25 | construction fails exactly when the domain check raises, with the same error; otherwise the object is new, has the domain and has no Locations |
| Listens.RoutesOf | nrt/listen.py:66-67 | one route per stored directive, in order, unpacked from its signature |
| Listens.Listen.Address | nrt/listen.py:115 | for a constructed Listen, the address splits into the ip and the port text |
| Listens.Listen.ValidView | nrt/listen.py:148-149 | every ServerName of a Listen satisfies the ServerName invariant |
| Listens.Listen.constructor | nrt/listen.py:23-26 | a new Listen has its ip and port, and no directives or ServerNames |
| Listens.Listen.SetDirective | nrt/listen.py:93-107 | the status is the grammar's validation chain; a passing directive is appended unless an equal one is stored |
| Listens.Listen.SetServerNames | nrt/listen.py:143-149 | the status is the None/instance check; a ServerName with a new domain is stored under it; otherwise nothing changes |
| Listens.Listen.EnsureServerName | nrt/listen.py:69-74 | afterwards a ServerName for the domain exists; one that was missing is created empty |
| Listens.Listen.Absorb | nrt/listen.py:67-77 | one iteration changes the tree exactly as `TreeSpec.BuildStep` |
| Listens.Listen.AbsorbInto | nrt/listen.py:76-77 | the ServerName of the route's domain takes the directive; the others stay |
| Listens.Listen.Build | nrt/listen.py:62-77 | the tree and the status are `TreeSpec.BuildV` over the stored directives: every property of BuildV holds for `_build` |
| Listens.Listen.IsValid | nrt/listen.py:118-127 | true iff every ServerName is valid |
| Listens.NewListen | nrt/listen.py:19-35 | construction fails exactly when `CheckListen` raises, with its error; otherwise the new Listen has the given ip and port and is empty |
| Nrts.OfferDirective | nrt/nrt.py:71-72 | a directive that passed the grammar is appended only if its signature is new; `Nrts.OfferDirectiveSpec` states its properties |
| Nrts.OfferDirectiveSpec | nrt/nrt.py:60-72 | only directives that pass the grammar are kept; no two share a signature; stored ones keep their place; the new one is appended iff it passes and its signature is new |
| Nrts.SameSignatureDropped | nrt/nrt.py:71-72 | the first write wins: after one directive, another with the same signature changes nothing |
| Nrts.DistinctKeptInOrder | nrt/nrt.py:71-72 | accepted directives with pairwise distinct signatures are all kept, in order |
| Nrts.ResolveStep | nrt/nrt.py:123-130 | one iteration of `resolve`: the Listen constructor's check, then the `listen` setter's store under a new address |
| Nrts.ResolveV | nrt/nrt.py:122-130 | the loop of `resolve`, stopping at the first raise; its properties are `Nrts.ResolveKeys`, `ResolvePass`, `ResolveKeeps`, `ResolveKeyed` and `ResolveStops` |
| Nrts.RouteListen | nrt/nrt.py:124-129 | a Listen built from a route's strings passes iff the ip is IPv4 and the port is in range; otherwise ValueError |
| Nrts.ResolveKeys | nrt/nrt.py:122-130 | a successful resolve leaves exactly the old addresses plus the routes' addresses |
| Nrts.ResolvePass | nrt/nrt.py:122-130 | resolve passes iff every route has an IPv4 ip and a port in range; otherwise ValueError |
| Nrts.ResolveKeeps | nrt/nrt.py:111-112 | a Listen already stored under an address is never replaced |
| Nrts.ResolveKeyed | nrt/nrt.py:111-112 | every key stays the address of the Listen stored under it |
| Nrts.SameAddress | nrt/nrt.py:111-112 | two routes share a Listen iff their ips are equal and their port texts are equal (so "80" and "080" differ) |
| Nrts.ResolveStops | nrt/nrt.py:122-130 | after the first constructor that raises, the rest of the directives change nothing |
| Nrts.AllPass | nrt/nrt.py:122-130 | routes with IPv4 ips and ports in range resolve, adding their addresses |
| Nrts.TwoPortsTwoListens | nrt/tests/test_nrt.py:27-41 | ports 80, 8080 and 80 on one ip produce two Listens |
| Nrts.OneAddressOneListen | nrt/tests/test_nrt.py:45-61 | one address under two domains produces the single Listen "0.0.0.0:80" |
| Nrts.Nrt.ValidKeyed | nrt/nrt.py:111-112 | every Listen of an Nrt is stored under its own address |
| Nrts.Nrt.constructor | nrt/nrt.py:41-42 | a new Nrt has no directives and no Listens |
| Nrts.Nrt.SetDirective | nrt/nrt.py:53-72 | the status is the grammar's validation chain; the directives become `OfferDirective` of the old ones |
| Nrts.Nrt.SetListen | nrt/nrt.py:101-112 | the status is the None/instance check; a Listen with a new address is stored under it; otherwise nothing changes |
| Nrts.Nrt.ResolveOne | nrt/nrt.py:123-130 | one iteration is `ResolveStep`; old Listens stay; a new one is fresh, empty and valid, with a fresh footprint, so every Listen method can be called on it |
| Nrts.Nrt.Resolve | nrt/nrt.py:115-130 | the Listens and the status are `ResolveV` over the stored directives; old Listens stay; new ones are fresh, empty and valid, with fresh footprints, so they can go on to take directives and build |
| Nrts.Nrt.Export | nrt/nrt.py:81 | raises NotImplementedError |
| Nrts.Nrt.IsValid | nrt/nrt.py:90 | raises NotImplementedError |
| LocationBlocks.AssignAllow | nrt/blocks/location/base.py:49-55 | the status is the None/type check; a new rule is appended and a present one changes nothing; the deny list and the location are untouched |
| LocationBlocks.AssignDeny | nrt/blocks/location/base.py:72-78 | the same checks and behaviour, on the deny list only |
| LocationBlocks.AssignKeepsWF | nrt/blocks/location/base.py:54-55 | neither rule list ever holds a duplicate |
| LocationBlocks.AnyRuleStored | nrt/blocks/location/base.py:49-55 | any string rule, the empty one included, is accepted and stored verbatim |
| LocationBlocks.AssignIdempotent | nrt/blocks/location/base.py:77-78 | assigning the same rule twice equals assigning it once |
| LocationBlocks.AllowDenyCommute | nrt/blocks/location/base.py:66-78 | an allow rule and a deny rule can be assigned in either order |
| LocationBlocks.AssignLocationAsWritten | nrt/blocks/location/base.py:102-105 | as written, None raises ValueError, any other value raises NameError, and nothing is stored |
| LocationBlocks.AssignLocation | nrt/blocks/location/base.py:102-107 | as intended, a string is stored and replaces the old location; None raises ValueError; a non-string raises TypeError |
| LocationBlocks.AllowProperty | nrt/blocks/location/base.py:35-40 | the `allow` getter returns the allow list (`LocationBlocks.AllowRoundTrip`) |
| LocationBlocks.DenyPropertyAsWritten | nrt/blocks/location/base.py:58-66 | as written the `deny` property keeps the `allow` getter, so it returns the allow list |
| LocationBlocks.DenyProperty | nrt/blocks/location/base.py:58-61 | the intended `deny` getter returns the deny list (`LocationBlocks.DenyRoundTrip`) |
| LocationBlocks.LocationPropertyAsWritten | nrt/blocks/location/base.py:88-96 | as written the `location` property keeps the `allow` getter, so it returns the allow list |
| LocationBlocks.LocationProperty | nrt/blocks/location/base.py:88-93 | the intended `location` getter returns the stored location (`LocationBlocks.LocationRoundTrip`) |
| LocationBlocks.DenyReadsAllow | nrt/blocks/location/base.py:58-66 | on a new block with one deny rule, the `deny` property as written reads an empty list while the rule sits in the deny list |
| LocationBlocks.AllowRoundTrip | nrt/blocks/location/base.py:35-55 | the `allow` property returns every allow rule assigned, and is not affected by deny rules |
| LocationBlocks.DenyRoundTrip | nrt/blocks/location/base.py:66-78 | the intended `deny` property returns every deny rule assigned, and is not affected by allow rules |
| LocationBlocks.LocationNeverStored | nrt/blocks/location/base.py:88-105 | as written, assigning "/" raises NameError and stores no location; the `location` property returns the allow list |
| LocationBlocks.LocationRoundTrip | nrt/blocks/location/base.py:96-107 | as intended, the assigned location reads back, and a later assignment replaces it |
| LocationBlocks.LocationBlock.constructor | nrt/blocks/location/base.py:30-32 | a new block has empty rule lists and no location |
| LocationBlocks.LocationBlock.SetAllow | nrt/blocks/location/base.py:43-55 | the new fields and the status are `AssignAllow`; both lists stay duplicate-free |
| LocationBlocks.LocationBlock.SetDeny | nrt/blocks/location/base.py:66-78 | the new fields and the status are `AssignDeny`; both lists stay duplicate-free |
| LocationBlocks.LocationBlock.SetLocation | nrt/blocks/location/base.py:96-107 | the new fields and the status are `AssignLocation` (the intended setter) |

## Left out

- Socket calls (`nrt/listen.py:49-58`). `inet_pton(AF_INET, ...)` is a foreign library call. It is replaced by `Addresses.IsIPv4`: four dot-separated groups of one to three ASCII digits, no leading zero, each at most 255. The `inet_aton` fallback for platforms without `inet_pton` is not modelled.
- Python regular expressions.
  - `\w` is read as ASCII `[A-Za-z0-9_]`, not as Unicode word characters, and `\d` as ASCII digits.
  - Python's `$` also matches before one final newline, and the model keeps that. Such a trailing newline stays in the location field after the split, so the Location rejects that path.
- Python `int(s)`: `Text.ParseInt` accepts an optional sign and ASCII digits only. The surrounding whitespace, underscores and non-ASCII digits that Python also accepts are not modelled. Ports taken from signatures are plain digits anyway.
- `value is ""` (`nrt/location.py:76`, `nrt/servername.py:47`) is read as equality with the empty string. CPython keeps a single empty string, so the two agree.
- Exception messages are not modelled, only the exception class.
- The `hasattr` lazy initialisation of `ServerName._locations` (`nrt/servername.py:25`, `nrt/servername.py:65-66`) is modelled as plain constructor initialisation. The unreachable `print` at `nrt/servername.py:75` is left out.
- The `"directive"` keyword that `Nrt.resolve` passes to `Listen` (`nrt/nrt.py:125`) is ignored by `Listen.__init__`. So the model's new Listens are empty, and resolve does not build the lower levels.
- `Nrt.export` and `Nrt.is_valid` only raise NotImplementedError (`nrt/nrt.py:81`, `nrt/nrt.py:90`). The tests expect `is_valid` to combine the Listens (`nrt/tests/test_nrt.py:214-244`); that meaning is not modelled at the Nrt level.
- `LocationBlock.export` is `pass` (`nrt/blocks/location/base.py:85`) and has no behaviour to model.
- Behaviour that only the tests mention is not modelled, because the source has none of it. This covers language settings, `Location.directives`, merged "all" rules and rejection of empty aliases (`nrt/tests/test_location.py:82-98`, `nrt/tests/test_location.py:318-380`).
- `nrt/tests/test_base.py` (loading mocks from files) and `setup.py` (packaging) are I/O and not part of this model.
- Listens.Listen.SetServerNames: requires that a ServerName stored under a new domain brings Locations that the Listen does not already hold. The source has no such check; the model does not capture two ServerNames sharing one Location object (aliasing).
- ServerNames.ServerName.SetLocations: the invariant of `ServerName` (unique paths, duplicate-free aliases) is proved only across the model's own methods. In the source, the getters `alias` (`nrt/location.py:35`) and `locations` (`nrt/servername.py:57`) return the internal lists, and a stored Location's `location` can still be assigned. So a caller holding a stored Location can give it the path of another Location of the same ServerName, or append to its aliases without the duplicate check. The model does not capture such changes made from outside; after one, the invariant is no longer proved.
- Listens.Listen: `ip` and `port` are `const`, fixed by the constructor's checks. In the source they are plain attributes (`nrt/listen.py:24-25`), checked only in `__init__`, that can be reassigned to anything later. The model assumes they never change after construction.
- Nrts.Nrt.SetListen: the invariant that every key is its Listen's `address` assumes that a stored Listen's `ip` and `port` never change. It also assumes that callers do not mutate the dicts returned by `Nrt.listen` (`nrt/nrt.py:98`) and `Listen.server_names` (`nrt/listen.py:135`). The model changes them only through its own methods.
- Addresses.CheckListen: `PyValues.Value` has no bool. In Python `True` is an int, so `port=True` passes the checks at `nrt/listen.py:28-33` (since `int(True)` is 1) and gives the address `"0.0.0.0:True"`. The model cannot express that argument.
- The views of the tree describe Locations by value (path and aliases). Object identity of the stored Locations is kept only through the `Repr` frame.
- The Listens that resolve creates are stated to be fresh, empty and valid, each with a fresh footprint, so a caller can go on to set their directives and build them. `resolve` itself does not fill them, because the source does not.
- Nrts.Nrt.SetDirective and Listens.Listen.SetDirective: the invariants (every stored directive passed the grammar; no two share a signature in an Nrt, no two are equal in a Listen) assume the directive lists change only through these setters. In the source the `directives` getters (`nrt/nrt.py:50`, `nrt/listen.py:85`) return the internal lists, so a caller can append anything to them; `nrt.directives.append({})` followed by `resolve()` raises KeyError at `nrt/nrt.py:123`. The model cannot express such a list or that KeyError.

## Findings

| source | as written | input that shows it | evidently intended | confidence | as-written member | corrected member |
|---|---|---|---|---|---|---|
| nrt/blocks/location/base.py:66 | `deny` is declared with `@allow.setter`, so reading `deny` returns the allow list | a new block, then `deny = "10.0.0.1"`: `deny` reads `[]` | `@deny.setter`, so that `deny` returns the deny rules | high, not executed | LocationBlocks.DenyReadsAllow | LocationBlocks.DenyRoundTrip |
| nrt/blocks/location/base.py:96-104 | `location` is declared with `@allow.setter`, and its type check names the undefined `directive` | a new block, then `location = "/"`: NameError, no location stored | `@location.setter` with `isinstance(location, str)`, storing the location | high, not executed | LocationBlocks.LocationNeverStored | LocationBlocks.LocationRoundTrip |
