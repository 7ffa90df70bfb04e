# network-config-manager in Dafny

network-config-manager (`nmctl`) writes the configuration files of systemd-networkd. This
project models the parts of it that transform data, and proves what they promise:

- **The kernel command line** (`DracutTokens`, `DracutRun`, `DracutParser`): the parser of
  dracut.cmdline(7) items `ip=`, `rd.route=` and `nameserver=`. It is a loop over tokens that
  mutates network objects, an owning table, an index by interface name and a current-network
  pointer. `DracutRun` gives the same loop as a state machine and, independently, a declarative
  grouping of the tokens; `DracutGrouping` proves that every run computes the grouping,
  `DracutLaws` what follows from it, `DracutForms` that printed items parse to what they
  describe, and `DracutCrashes` how every other line ends. `DracutExamples` has the lines that
  crash the parser or lose what they say.
- **The network file generator** (`NetworkFile`, `NetworkSections`, `NetworkText`,
  `CommandLineFiles`, `CommandLineText`): a network becomes a key file with [Match], [Link] and
  [Network] keys and one section per address and route. Reading the file back, in memory or
  through its text, gives the fields back, with two exceptions stated exactly. From a command
  line to the saved text: which lines get their files at all, and when a route is in them.
- **Key files** (`KeyFiles`, `KeyFileText`, `ConfigStore`): sections and keys with
  last-write-wins updates, their text form with its parser, and files that are read, changed and
  written back by each call.
- **Feature switches, masters and peers** (`LinkFeatures`, `MasterDevice`, `WireGuard`): argument
  lists folded into a link file; members of a bond, bridge or VRF given their master; WireGuard
  peers as repeated sections.
- **DNS** (`Dns`, `ResolvConf`): the ordered union behind adding servers and domains, and what
  repeating an update does to /etc/systemd/resolved.conf and /etc/resolv.conf.
- **The JSON description** (`NetworkJson`, `JsonSearch`, `JsonQueries`): addresses printed from
  bytes, searched for as text, and the DNS and NTP queries.
- **Command dispatch** (`Ctl`): two hash tables against a linear scan.

`Strings`, `Addresses` and `Wrappers` hold the helpers: splitting, joining and stripping text,
numbers, addresses. Code that works step by step is a method, or a class whose fields the source
updates, proved against a function of its inputs or of the old state; the laws are lemmas about
those functions. An outcome is a value, an error code, or `Crashed`, which stands for a failed
assertion, a null dereference, a read past the end of a vector or of freed storage, or undefined
arithmetic.

Parsers and printers of the C library (inet_pton, inet_ntop, ether_aton, strtol) are function
parameters; each law that needs something of them says so in a `requires`. Hash tables are maps
and sets keyed by what their hash and equality functions look at; where a table is walked, the
order is a parameter.

Every lemma turns Dafny's automatic induction off: a proof by induction is the one written out.

## What the proofs show about the code

Places where the code does something other than its documentation or names suggest; the model
follows the code.

- Four kinds of documented items crash the parser (`DracutCrashes.LongCrashesExactly`,
  `RouteCrashesExactly`, `LineEndsExactly`). A readable peer field in the long `ip=` form is
  written through a null pointer (`DracutExamples.PeerCrashes`), and so is a netmask without a
  gateway (`MaskAloneCrashes`). With an unreadable netmask and exactly seven fields the ninth is
  read past the end of the vector (`SevenFieldsCrash`). dracut.cmdline(7) makes the interface of
  `rd.route=` optional; without it a null key is looked up (`RouteWithoutInterfaceCrashes`).
- An unreadable netmask makes the last two fields be read as name servers unless they parse as
  MTU and MAC address (`DracutForms.OneTailReading`). A name server before a MAC address is
  dropped.
- Every `nameserver=` token also inserts an empty network. Two networks without a name count as
  the same key, so two `nameserver=` tokens fail (`DracutLaws.OneNamelessToken`), and one is
  enough to make the generator abort (`CommandLineFiles.GeneratedExactly`, `NameserverAborts`).
- Routes are meant to move when networks merge. Only one that the target already had is moved; a
  new one stays in the source as well and is freed with it (`DracutLaws.MovesExactlyWhenRepeated`,
  `LentExactly`). The generator then reads the freed route, so a line of an `ip=` item and a new
  route for its interface gets no defined file (`CommandLineFiles.GeneratedExactly`,
  `JoinedRouteFreed`). What the networks would say with the storage still there is stated apart
  (`Contents`).
- Name servers are hashed and compared as strings, up to their first zero byte: an `ip=` item
  with 10.0.0.1 and 10.0.0.2 keeps only the second (`DracutLaws.NameserversKeptExactly`,
  `DracutExamples.NameserverLost`).
- The host name of an `ip=` item is parsed and never written. The modes auto6, either6 and ibft
  write a DHCP key without a value.
- Networks of one interface write the same file, and the one written last is kept
  (`CommandLineFiles.AllKeptExactly`). Two `rd.route=` items leave two such networks
  (`OneOfTwoKept`); and a route that joined its `ip=` item's network can be lost to the network
  of an `rd.route=` item that came before that item (`RouteReachesFile`, `JoinedRouteLost`).
- Escapes in a token are resolved, so that an interface name can hold a newline and its file
  does not read back (`CommandLineText.EscapedNewline`).
- `optional` is written inside the [Link] block but does not open it, and an IPv6 MTU of 2^31 or
  more is written as a negative number (`NetworkFile.CompileRecovers`, `OptionalLost`,
  `LargeIpv6MtuNegative`).
- The master loop keeps the index of an earlier member when a name is unknown and then stops at
  that member's file (`MasterDevice.OwnFileExactly`, `UnknownMemberStops`). It also stops at any
  member that shares an earlier one's file (`SharedFileEnds`).
- Of the `nameserver` lines of /etc/resolv.conf only the last is read, so an update loses the
  servers of the others (`ResolvConf.AllServersKeptExactly`, `FirstServerLost`); without such a
  line adding a server fails an assertion (`AbortsExactly`).
- A domain with a space is added to resolved.conf and to resolv.conf again by every update
  (`Dns.UpdateTwice`, `ResolvConf.UpdateTwiceSame`).
- A provider that cannot be printed ends a DNS or NTP query for all links (`JsonQueries.StoppedExactly`).
- A command's lower bound leaves out the command word that the upper bound counts, so equal
  bounds admit no call (`Ctl.CanFit`); a default command that is not the first entry is never run.

## Model

| member | source | states |
|---|---|---|
| DracutGrouping.RunIsGrouping | src/dracut/dracut-parser.c:352-423 | for every token list: the run succeeds exactly when no token clashes with an earlier one, and then the table is the declarative grouping, the index holds exactly the named ip networks, the pointer is at the latest ip network, and the ledger holds exactly the routes shared with freed networks |
| DracutForms.PrintThenParse | src/dracut/dracut-parser.c:352-423 | printing any list of well-formed items and parsing the line succeeds exactly when no two items name one interface with `ip=` or both leave a nameless network, and returns the grouping of what the items describe |
| DracutForms.ParseOfReadings | src/dracut/dracut-parser.c:352-423 | any line at all succeeds exactly when its token readings are clean, with their grouping as the result |
| DracutForms.CleanExactly | src/dracut/dracut-parser.c:388-417 | the clean item lists are exactly those without two clashing items |
| DracutForms.ItemRead | src/dracut/dracut-parser.c:114-320 | a printed item read as a token gives the network it describes, for all five forms |
| DracutForms.InterfaceForm | src/dracut/dracut-parser.c:125-129 | a line whose first field is not empty and not an address is parsed as the interface:mode form on an untouched network |
| DracutForms.FallbackNames | src/dracut/dracut-parser.c:206-255 | whenever the second form is used, the first field becomes the interface name, and the first attempt left the network untouched exactly when that field is not an address |
| DracutForms.LongNeverFallsBack | src/dracut/dracut-parser.c:234-255 | a well-formed long form is parsed by the first attempt |
| DracutForms.OneTailReading | src/dracut/dracut-parser.c:182-203 | for every long-form line that parses, the last two fields set MTU and MAC or add name servers, never a mixture |
| DracutForms.TokenSplit | src/share/config-parser.c:256-273 | a token is its key and its whole value |
| DracutCrashes.LineEndsExactly | src/dracut/dracut-parser.c:352-423 | any line crashes, or fails with an error, exactly when some token after clean ones does so; which token does what is stated on the readings |
| DracutCrashes.RunEndsExactly | src/dracut/dracut-parser.c:373-418 | the same for every token list, with success exactly when no token ends the run |
| DracutCrashes.LongCrashesExactly | src/dracut/dracut-parser.c:114-204 | the long form crashes exactly when its address can be read and a peer can, or there is no peer and the gateway can be read and the netmask is zero, lacks a gateway, or is unreadable as one of seven fields |
| DracutCrashes.RouteCrashesExactly | src/dracut/dracut-parser.c:274-320 | the route form itself crashes exactly with fewer than two fields of which a first one can be read |
| DracutExamples.LongLineCrashesExactly | src/dracut/dracut-parser.c:114-204 | a line of one long form crashes the parser exactly when its fields do |
| DracutExamples.RouteLineCrashesExactly | src/dracut/dracut-parser.c:274-350 | a line of one route form crashes exactly when its addresses can be read and its gateway or interface field is missing |
| DracutExamples.PeerCrashes | src/dracut/dracut-parser.c:128-137 | a line with a peer address |
| DracutExamples.MaskAloneCrashes | src/dracut/dracut-parser.c:158-170 | a line with a netmask and no gateway |
| DracutExamples.SevenFieldsCrash | src/dracut/dracut-parser.c:182-203 | a line of seven fields with an unreadable netmask |
| DracutExamples.RouteWithoutInterfaceCrashes | src/dracut/dracut-parser.c:334-342 | a route line without an interface |
| DracutTokens.ModeLeast | src/dracut/dracut-parser.c:39-48 | a mode name gives the least number whose name agrees with it apart from case, and is invalid exactly when none does |
| DracutLaws.LoopBoundary | src/dracut/dracut-parser.c:373-418 | after every prefix of a successful run the state is the one for that prefix, and the index points each name at the one network of that name |
| DracutLaws.RouteConservation | src/dracut/dracut-parser.c:141-156 | every token with routes has exactly one home network, and a network holds exactly the routes of the tokens it is home to |
| DracutParser.JoinRoute | src/dracut/dracut-parser.c:322-350 | on the objects: the target has the routes of both networks, the source keeps those it was first to have, and every other network is as it was |
| DracutLaws.MovesExactlyWhenRepeated | src/dracut/dracut-parser.c:322-345 | merging leaves no route in storage freed with its source exactly when every merged route repeats one of its ip token's own |
| DracutLaws.LentExactly | src/dracut/dracut-parser.c:322-345 | one merged route is left in freed storage exactly when its ip token did not have it |
| DracutLaws.JoinedRouteShared | src/dracut/dracut-parser.c:322-345 | two tokens after which a route is shared with a freed network |
| DracutLaws.NameserversKeptExactly | src/dracut/dracut-parser.c:257-271 | all name servers given to a network are kept exactly when no two different ones agree up to their first zero byte |
| DracutExamples.NameserverLost | src/dracut/dracut-parser.c:182-271 | a printed line with two name servers that parses to one network with only the second |
| DracutLaws.NameserversLast | src/dracut/dracut-parser.c:257-271 | under each key the last address given is the one kept |
| DracutLaws.AllNamedExactly | src/dracut/dracut-parser.c:404-417 | every resulting network has a name exactly when no `nameserver=` and no `ip=` without interface was given |
| DracutLaws.OneNamelessToken | src/dracut/dracut-parser.c:365-417 | a successful line has at most one token that leaves a nameless network |
| DracutParser.ParseProcCommandLine | src/dracut/dracut-parser.c:352-423 | the loop over heap objects and two tables returns the status and the networks of the state machine, in distinct objects |
| DracutParser.Turn | src/dracut/dracut-parser.c:373-418 | one turn takes tables that represent the state to tables that represent the next |
| DracutParser.TakeToken | src/dracut/dracut-parser.c:373-418 | the branches on a token's key, with their error statuses |
| DracutParser.TakeIp | src/dracut/dracut-parser.c:384-395 | an `ip=` token against the state machine |
| DracutParser.PlaceIp | src/dracut/dracut-parser.c:391-418 | both insertions of an ip network, and the failure on a repeated interface |
| DracutParser.TakeRoute | src/dracut/dracut-parser.c:396-403 | an `rd.route=` token against the state machine |
| DracutParser.PlaceRoute | src/dracut/dracut-parser.c:334-350 | merging into the network of the interface, else keeping the route's own network |
| DracutParser.MergeNetwork | src/dracut/dracut-parser.c:322-350 | the target holds both networks' routes and the source keeps those new to the target |
| DracutParser.TakeNameserver | src/dracut/dracut-parser.c:404-410 | the address goes to the current network and an empty network is inserted |
| DracutParser.InsertNetwork | src/dracut/dracut-parser.c:413-417 | the owning table refuses a second nameless network and changes nothing else |
| DracutParser.ParseCommandLineIp | src/dracut/dracut-parser.c:234-255 | the object after a parse, failed or not, is the modelled one |
| DracutParser.ParseCommandLineIpInterface | src/dracut/dracut-parser.c:114-204 | the long form, step by step, with what a failed parse leaves behind |
| DracutParser.ParseRest | src/dracut/dracut-parser.c:141-204 | gateway, netmask, names, mode and the last two fields |
| DracutParser.ParseTail | src/dracut/dracut-parser.c:182-203 | the two readings of the last two fields, with the status an unreadable netmask left |
| DracutParser.ParseCommandLineIpDhcpInterface | src/dracut/dracut-parser.c:206-232 | the interface:mode form |
| DracutParser.ParseCommandLineRdRoute | src/dracut/dracut-parser.c:274-320 | the route form |
| DracutParser.AddNameserverFromString | src/dracut/dracut-parser.c:257-271 | an address enters the table or the parse fails |
| Addresses.ContiguousMask | src/share/network-util.c:272-276 | a mask of k ones and 32 - k zeros has prefix length k |
| CommandLineFiles.GeneratedExactly | src/manager/network-manager.c:3437-3503 | a parsed command line gets its files, in whatever order its networks are walked, exactly when it has no `nameserver=` token, no `ip=` without interface and no `rd.route=` that brings an `ip=` network a new route; else the generator reads a null name or a freed route |
| CommandLineFiles.NameserverAborts | src/manager/network-manager.c:3437-3503 | a line of one `nameserver=` token that parses and whose generation aborts |
| CommandLineFiles.JoinedRouteFreed | src/dracut/dracut-parser.c:322-350 | an `ip=` item and a new route for its interface, which the generator reads after it was freed |
| CommandLineFiles.RouteReachesFile | src/manager/network-manager.c:3472-3503 | a route of an `rd.route=` token that joined an `ip=` network is freed exactly when the `ip=` token did not have it; with its storage still there it would stand in the file of its interface in every walk order exactly when every network written to that file has a route that prints the same; and where no route is freed that is what is written |
| CommandLineFiles.AloneInFile | src/manager/network-manager.c:3472-3503 | it would stand there, and does where no route is freed, when that `ip=` token's network is the only one written to the file |
| CommandLineFiles.JoinedRouteLost | src/manager/network-manager.c:3472-3503 | a route item, the `ip=` item of its interface with another gateway and a route that repeats it: nothing is freed, and a walk leaves the joined route in no file |
| CommandLineFiles.FileSaysNetwork | src/manager/network.c:1129-1568 | a file from the command line says exactly the name, MAC, MTU, mode, name servers, addresses and routes of its network and nothing else in the three sections |
| CommandLineText.LineThroughText | src/manager/network.c:1129-1643 | for every line without escapes and newlines, the saved text of each network's file reads back as exactly what the network states, trimmed, with every address and route in order |
| CommandLineText.LeftInText | src/manager/network-manager.c:3472-3503 | what is left in a file after the walk is in its text, read again |
| CommandLineText.EscapedNewline | src/share/config-parser.c:256-273 | a token whose escape puts a newline into its value |
| NetworkText.FileGood | src/manager/network.c:1004-1568 | a generated file can be read back when no value in it holds a newline, a backslash or a NUL |
| CommandLineFiles.AllKeptExactly | src/manager/network-manager.c:3437-3503 | every network keeps its file exactly when networks sharing a file name would write the same |
| CommandLineFiles.OneOfTwoKept | src/manager/network-manager.c:3437-3503 | two `rd.route=` items of one interface, of which one file is kept |
| CommandLineFiles.LastGeneratedWins | src/share/config-file.c:885-902 | a file holds the network generated last under its name |
| CommandLineFiles.NetworkDirectory.GenerateAll | src/manager/network-manager.c:3472-3503 | the files after generating every network in table order |
| NetworkFile.CompileRecovers | src/manager/network.c:1129-1361 | compiling a configuration and reading any key back gives what its fields intend, the later source winning where two share a key, exactly unless `optional` alone asks for the [Link] section or an IPv6 MTU is 2^31 or more; then the key is missing, or holds the negative number |
| NetworkFile.OptionalLost | src/manager/network.c:1174-1223 | a network of which only `optional` is set, and which loses it |
| NetworkFile.LargeIpv6MtuNegative | src/manager/network.c:1308-1312 | an IPv6 MTU of 2^31 written as a negative number |
| NetworkFile.UnownedKept | src/manager/network.c:1129-1361 | whatever file the writes start from, every key the generator does not write keeps its value |
| NetworkFile.KeysDistinct | src/manager/network.c:1148-1361 | no two fields share a section and a key |
| NetworkFile.CompileWithout | src/manager/network.c:1148-1361 | the writes make no section but the three |
| NetworkFile.GenerateSections | src/manager/network.c:1129-1361 | the guarded writes, on a key file object, leave what the one list of writes leaves |
| NetworkSections.FileRecovers | src/manager/network.c:1129-1568 | a whole generated file gives back every key of the three sections, with the two exceptions of CompileRecovers, and every address and non-null route in order, whatever sections stand between |
| NetworkSections.FileThroughText | src/manager/network.c:1638-1643 | the same after saving and parsing the file: values are trimmed, a missing value reads as empty, and no address or route is lost |
| NetworkSections.SectionsRecovered | src/manager/network.c:1004-1127 | one section per address and per non-null route, in order |
| NetworkSections.FieldsRecovered | src/manager/network.c:1004-1127 | a section gives back every field that is set and no other |
| NetworkSections.AppendItems | src/manager/network.c:1564-1568 | walking a table appends its sections and changes nothing before them |
| NetworkSections.MakeSection | src/manager/network.c:1004-1127 | the keys of one section, in order |
| NetworkSections.GenerateFile | src/manager/network.c:1129-1568 | the whole file, addresses before routes |
| KeyFiles.KeyFile.SetConfig | src/share/config-file.c:222-270 | overwrite in the first section of the name, add the key there, or add the section |
| KeyFiles.KeyFile.AddKey | src/share/config-file.c:409-460 | the key is added to the first section of the name without overwriting |
| KeyFiles.KeyFile.ConfigExists | src/share/config-parser.c:162-184 | searching all sections of the name; a key without a value is read through a null pointer |
| KeyFiles.KeyFile.AddSection | src/share/config-file.c:148-155 | the section becomes the last |
| KeyFiles.KeyFile.constructor | src/share/config-file.c:76-91 | a named file without sections |
| KeyFiles.LookupSet | src/share/config-file.c:222-270 | what is set is found |
| KeyFiles.LookupSetOther | src/share/config-file.c:222-270 | every other key keeps its value |
| KeyFiles.LastWriteWins | src/share/config-file.c:222-270 | after any list of writes each key holds its last write, or what it held before |
| KeyFileText.KeyFileSave | src/share/config-file.c:102-130 | the text of a file, sections without keys left out |
| KeyFileText.ParseKeyFile | src/share/config-parser.c:17-106 | the sections of a text; a key before any section fails an assertion |
| KeyFileText.SaveParse | src/share/config-parser.c:17-106 | saving a file and parsing the text gives the file back in normal form |
| KeyFileText.ParseGood | src/share/config-parser.c:17-106 | whatever is parsed from plain text can be saved and parsed again |
| KeyFileText.SaveParseAgain | src/share/config-parser.c:17-106 | saving a parsed file settles its text: parsing and saving that text again gives the same text |
| KeyFileText.KeyLineRead | src/share/config-parser.c:256-273 | a written key line gives back the key and its trimmed value |
| ConfigStore.Store.Load | src/share/config-parser.c:17-106 | a path's sections, or the error of a missing file |
| ConfigStore.Store.SetConfigFileStr | src/share/config-file.c:287-308 | read, set and write back one file; every other file and every failed call leave the store alone |
| ConfigStore.Store.AddKeyToSectionStr | src/share/config-file.c:409-460 | read, add and write back one file |
| ConfigStore.Store.CreateConfFile | src/share/file-util.c:64-91 | the file is there and empty |
| ConfigStore.FileSetRead | src/share/config-file.c:287-308 | what one update leaves parses to the updated sections |
| ConfigStore.FileAddRead | src/share/config-file.c:409-460 | the same for an added key |
| ConfigStore.ManyWritesOneSave | src/share/config-file.c:287-308 | any number of read-change-write updates leaves the same text as making all changes in memory and saving once |
| ConfigStore.ManyWritesRead | src/share/config-file.c:287-308 | and that text parses to the changed sections |
| LinkFeatures.ConfigureLinkFeatures | src/manager/ncm-link.c:220-402 | the link file afterwards is the old one with the last value of each keyword; a bad word anywhere leaves every file as it was |
| LinkFeatures.ParseArguments | src/manager/ncm-link.c:235-396 | the loop assigns the fields of the decoded pairs, or fails where decoding fails |
| LinkFeatures.DecodeExactly | src/manager/ncm-link.c:235-396 | an argument list is accepted exactly when it is pairs of a known keyword and a boolean |
| LinkFeatures.LastValueWins | src/manager/ncm-link.c:235-396 | a field holds its keyword's last value, or its default |
| LinkFeatures.OnlyLastValuesMatter | src/manager/netdev-link.c:344-438 | the writes depend on nothing but the last value of each keyword, so the order of different keywords is free |
| LinkFeatures.FeaturesEndToEnd | src/manager/netdev-link.c:344-438 | the file left by the call, read again, says each given feature's last value, and under every other key of any section what it said before, with an empty value where it had none |
| LinkFeatures.Configure | src/manager/netdev-link.c:344-438 | the guarded writes, one file update each |
| LinkFeatures.LinkConfFile | src/manager/netdev-link.c:184-227 | an existing link file is kept; a missing one is created for the MAC address and name |
| LinkFeatures.KeysDistinct | src/manager/netdev-link.c:14-84 | no two features share a key |
| LinkFeatures.NetDevLink.constructor | src/manager/netdev-link.c:86-122 | no feature is given |
| MasterDevice.GenerateMembers | src/manager/network.c:1705-1770 | the loop leaves the files of the modelled one |
| MasterDevice.MemberTurn | src/manager/network.c:1709-1723 | one member's turn: prepared, stopped at, or given the key |
| MasterDevice.EnslavesLeading | src/manager/network.c:1705-1770 | with readable files, the members before the first one that has the key, shares an earlier member's file, or has a missing file in use, are given it, once, every other file is as it was, and only members' files appear |
| MasterDevice.EnslavesAll | src/manager/network.c:1705-1770 | when no member has the key and no two share a file, every member is given it and then has it |
| MasterDevice.SharedFileEnds | src/manager/network.c:1709-1723 | no member from the second of a shared file on is given it |
| MasterDevice.SecondRunChangesNothing | src/manager/network.c:1705-1770 | a second run leaves every file as it was |
| MasterDevice.AddedOnce | src/manager/network.c:1715-1723 | the key then occurs exactly once, in the file written and read again too; EnslavesLeading states it of each member's file |
| MasterDevice.AddedIsFound | src/manager/network.c:1715-1723 | and is found when the file is read again |
| MasterDevice.OwnFileExactly | src/manager/network.c:1709-1715 | a turn works on the member's own file exactly when the member is a known device or the index left over leads to no other file |
| MasterDevice.UnknownMemberStops | src/manager/network.c:1705-1723 | an unknown member after a known one ends the loop |
| MasterDevice.ConfigExists | src/share/config-parser.c:130-144 | errors of reading a file count as having the key |
| MasterDevice.CreateNetworkConfFile | src/manager/network.c:457-484 | the new file's text |
| WireGuard.AppendPeers | src/manager/netdev.c:1249-1310 | one section per peer, in list order, after what was there |
| WireGuard.PeersRecovered | src/manager/netdev.c:1249-1310 | a reader of the sections recovers every peer, its allowed-address list included |
| WireGuard.PeersThroughText | src/manager/netdev.c:1249-1310 | the same through the saved text; a peer that sets nothing leaves no section |
| WireGuard.PeerRecovered | src/manager/netdev.c:1253-1300 | one peer from its section |
| Strings.EntriesRecovered | src/manager/netdev.c:1282-1297 | a space-separated list gives its entries back, trailing space or not |
| Strings.JoinSpaced | src/manager/netdev.c:1290-1292 | the loop that appends each entry and a space |
| Strings.StrSplit | src/dracut/dracut-parser.c:121 | bounded splitting as a loop |
| Strings.StrJoin | src/dns/dns.c:256 | joining as a loop |
| Strings.JoinSplit | src/dracut/dracut-parser.c:121 | joining the pieces restores the line, whatever the bound |
| Strings.SplitJoin | src/dracut/dracut-parser.c:185-229 | splitting a join restores the fields exactly when only the last of a full count holds the separator |
| Strings.StripPlain | src/share/string-util.c:109-120 | text without escapes is only trimmed |
| Strings.DecimalRoundTrip | src/share/config-file.c:170-181 | a printed number is read back |
| Dns.UnionIsMerge | src/dns/dns.c:157-193 | the merge is the one list that starts with the old one, holds exactly both lists' entries, adds nothing twice and keeps first-occurrence order |
| Dns.MergeConcat | src/dns/dns.c:157-193 | merging twice in sequence is merging the concatenation once |
| Dns.MergeTwice | src/dns/dns.c:157-193 | merging the same again changes nothing |
| Dns.ResolvedConf.Add | src/dns/dns.c:206-298 | the file's two values after the update, and every error before any change |
| Dns.ResolvedConf.UpdateDns | src/dns/dns.c:218-257 | the server loop |
| Dns.ResolvedConf.UpdateDomains | src/dns/dns.c:259-287 | the domain loop |
| Dns.UpdateTwice | src/dns/dns.c:264-287 | updating a value twice leaves what once leaves exactly when no given entry holds a space |
| Dns.SpaceAddsAgain | src/dns/dns.c:276-287 | an entry with a space makes the value longer every time |
| Dns.UpdateConcat | src/dns/dns.c:222-287 | updates in sequence are one update with the concatenation |
| ResolvConf.ParseResolvConf | src/share/config-parser.c:354-410 | the lists of a text, each from the last line of its kind |
| ResolvConf.WriteList | src/share/config-file.c:830-846 | the line of a list |
| ResolvConf.WriteThenRead | src/share/config-file.c:820-853 | what is written is read back, exactly when no entry holds a space; an empty list is gone |
| ResolvConf.LastLineOnly | src/share/config-parser.c:394-398 | the servers read are those of the last line read as servers |
| ResolvConf.AbortsExactly | src/dns/dns.c:148-203 | an update aborts exactly when some given server can be printed and no line is read as servers |
| ResolvConf.AllServersKeptExactly | src/share/config-parser.c:354-410 | an update keeps the servers of all lines exactly when each of them stands on the last such line or is added |
| ResolvConf.FirstServerLost | src/share/config-parser.c:354-410 | a file of two servers on two lines, which an update with nothing to add leaves without the first |
| ResolvConf.ResolvConf.Add | src/dns/dns.c:148-203 | the file after the update; adding a server without a nameserver line aborts |
| ResolvConf.ResolvConf.MergeServers | src/dns/dns.c:157-174 | the server loop |
| ResolvConf.ResolvConf.MergeDomains | src/dns/dns.c:177-196 | the domain loop, and taking the given list as it is when there was none |
| ResolvConf.UpdateTwiceSame | src/dns/dns.c:148-203 | the same update again leaves the file as it is exactly when no given domain holds a space |
| NetworkJson.ArrayToIp | src/json/network-json.c:1130-1185 | the loop that prints an address, one or two elements at a time |
| NetworkJson.DottedRoundTrip | src/json/network-json.c:1130-1161 | a parser undoes IPv4 rendering, for numbers of any size an int has |
| NetworkJson.GroupedRoundTrip | src/json/network-json.c:1130-1161 | a parser undoes rendering in groups, up to the zero that fills the last one |
| NetworkJson.DottedInjective | src/json/network-json.c:1130-1161 | two IPv4 texts agree exactly when the numbers agree and the prefixes are equal or both not positive |
| NetworkJson.GroupedInjective | src/json/network-json.c:1130-1161 | the same for groups, exactly: filled groups agree; for even lengths, the bytes agree |
| JsonSearch.ConfigSource | src/json/network-json.c:1395-1535 | the nested loops return and store what the first matching entry in document order says; an address search that fails on its provider has stored the source |
| JsonSearch.SearchIsRaw | src/json/network-json.c:1395-1464 | searching for an IPv4 text succeeds exactly when an entry with those bytes and that prefix exists, and reports the first one's source, provider and state |
| JsonSearch.HitIsRaw | src/json/network-json.c:1425-1433 | one entry prints as the text exactly when it holds the bytes |
| JsonSearch.Search6IsRaw | src/json/network-json.c:1395-1464 | the same for a canonical IPv6 text, among entries of the two families |
| JsonSearch.Hit6IsRaw | src/json/network-json.c:1164-1175 | one such entry prints as the text exactly when it holds the address |
| JsonSearch.FindEntry | src/json/network-json.c:1421-1459 | the inner loop |
| JsonQueries.RunQuery | src/json/network-json.c:1187-1393 | the DNS and NTP queries as loops |
| JsonQueries.DnsEntry | src/json/network-json.c:1320-1380 | what one DNS entry gives |
| JsonQueries.NtpEntry | src/json/network-json.c:1215-1278 | what one NTP entry gives |
| JsonQueries.AllThenOne | src/json/network-json.c:1187-1393 | unless a provider ends it, the query for all links restricted to one name, names taken off, is that link's query in the same order, "not found" exactly when none remain |
| JsonQueries.StoppedExactly | src/json/network-json.c:1262-1376 | a provider ends the query for all links exactly when it ends some link's |
| Ctl.CtlManager.constructor | src/ctl/ctl.c:10-39 | the two tables after the two loops |
| Ctl.CtlManager.GetCommand | src/ctl/ctl.c:50-58 | the two-table lookup |
| Ctl.CtlManager.RunCommand | src/ctl/ctl.c:60-100 | which handler runs, with what, or how the call fails |
| Ctl.FindIsChosen | src/ctl/ctl.c:31-58 | the lookup picks the last entry of that name, else the last of that alias before the first entry without one |
| Ctl.NotFoundExactly | src/ctl/ctl.c:50-58 | nothing is found exactly when neither exists |
| Ctl.RunsExactly | src/ctl/ctl.c:60-100 | a handler runs exactly when its entry is chosen and the argument count fits |
| Ctl.CanFit | src/ctl/ctl.c:91-99 | bounds admit some call exactly when the upper one exceeds the lower one |

## Left out

- D-Bus, netlink, udev, file permissions and reloads: effects outside the data; a save returns the file's contents.
- Display, help text, nftables, the other argument parsers: the link features stand for the parsers, which share their shape.
- The [DHCPv4], [DHCPv6], [IPv6AcceptRA], [Bridge], [DHCPServer] and [IPoIB] keys, routing policy rules and SR-IOV: more guarded writes of the same kind. `NetworkSections` lets any such sections stand in the file.
- VXLAN, bond and bridge keys of netdev files: near-identical guarded writes.
- MACVLAN, VLAN and the other one-master kinds: a loop over one member.
- The id and name tables of the generator: a mode is the name its number has.
- `address_equal`, which compares only families: addresses of a table arrive as a list; a command line gives a network at most one.
- The `static` of the current-network pointer: a call starts with none.
- Allocation failure and pointer ownership, except the routes freed after a merge. A further route for the interface is compared with the freed one, and on repetition the table keeps a freed key; the parser goes on as if that storage were still there.
- The order in which hash tables are walked: a parameter.
- Canonical IPv6 text: the C library's; what is used of it is a stated requirement.
- Escapes and lists of GKeyFile in resolved.conf, and its encoding error.
- JSON values of unexpected types: entries hold their keys at the types systemd-networkd writes.
- DracutForms.OneTailReading: assumes that no text is both an address and an MTU, as the C parsers have it.
- JsonSearch.ConfigSource: one method for the address and the route search, whose loops are the same.
- JsonSearch.Search6IsRaw: for entries of the two address families, an IPv6 one of 16 bytes; the text of another family would have to be told apart from canonical IPv6 text.
- ResolvConf.UpdateTwiceSame: for files whose servers and domains, once read, hold no backslash, newline or NUL, as those of a file without escapes (`PlainRewritable`), for printed servers without white space, and for domains that are not empty, are stripped and hold none of these either.
- ResolvConf.AllServersKeptExactly: for the same files, servers and domains.
- NetworkJson.ArrayToIp: numbers arrive as the JSON library gives them, clamped to an int.
- CommandLineText.LineThroughText: needs the C library to print an address without a newline, a backslash or a NUL.
- LinkFeatures.Configure: one loop over a table for the sixteen guarded writes the source spells out; NetworkSections.MakeSection likewise for the keys of a section.
