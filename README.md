# VelocityConfigurationBuilder, modelled in Dafny

VelocityConfigurationBuilder (`vcb`) is a command-line tool. It turns a set of
options into a Velocity proxy `config.toml`. This project models the part of
it that computes something:

- `parseServers` scans the `servers` option with the pattern
  `(,*((.+?)=(.+?:\d+)))+?`. It maps each match's name (group 3) to its
  `host:port` (group 4). The module `ServerList` writes that scan out as an
  explicit scanner that tries alternatives in the order a Java regex engine
  does.
- `parseForcedHosts` splits the `forced_hosts` option on `,`, each segment on
  `=`, and piece 1 on `+`. This is the module `ForcedHosts`.
- The tri-state boolean conversion the boolean options use, and the value
  every option takes by default. This is the module `Cli`.
- The assembly of the `VelocityConfiguration` record from the option values,
  including the `try` list split on `,`. The record's schema is modelled with
  the external key (`@SerialName`) of every field, and so is the tree of
  keyed values the record is serialized from. This is the module
  `Configuration`.

The helper modules model Kotlin's library behaviour:

- `Strings` models `String.split` on one character (empty pieces kept, so
  `"".split(",") == [""]`) and its inverse `joinToString`.
- `AssocLists` models `associate`, which builds an insertion-ordered
  `LinkedHashMap`. A later pair overwrites the value of an earlier one, and
  the key keeps its first position.
- `Wrappers` holds `Option` and `Result`.

Kotlin's `Int` is the subset type `Cli.Int32`. A forced-hosts segment without
`=` makes `it[1]` throw `IndexOutOfBoundsException`. The model returns
`Failure(MissingEquals(k))` instead, where `k` is the position of the first
such segment. Assembly propagates that failure.

`parseServers` is a regex scan, not a split. Malformed text causes no
error: a segment without `=` or without `:port` is skipped or absorbed into
a neighbouring match, and input with no match gives an empty map.

A forced-hosts segment maps its host to piece 1 of the `=`-split, the text
between the first and the second `=`. Text after a second `=` is dropped. A
segment without `=` is an error (the `it[1]` throw). So are the empty
option, a trailing comma and a doubled comma, because each leaves an empty
segment.

## Model

| member | source | states |
|---|---|---|
| ServerList.MatchAtIff | src/main/kotlin/dev/mr3n/vcb/cli/App.kt:10 | the scanner's match at a position is exactly the text of shape `,*(.+?)=(.+?:\d+)` there that the engine tries first: most commas, then the shortest name, then the shortest host, with every following digit taken |
| ServerList.MatchAtShaped | src/main/kotlin/dev/mr3n/vcb/cli/App.kt:10 | every match the scanner reports has the pattern's shape |
| ServerList.MatchAtFirst | src/main/kotlin/dev/mr3n/vcb/cli/App.kt:10 | wherever the pattern accepts some text, the scanner reports a match there, and it is tried no later than that text |
| ServerList.BacktrackSpec | src/main/kotlin/dev/mr3n/vcb/cli/App.kt:10 | `,*` gives back commas one at a time: the chosen start is where name and value match, and none starts at a later position of the comma run |
| ServerList.NameAtFirst | src/main/kotlin/dev/mr3n/vcb/cli/App.kt:10 | wherever a name and value fit, `(.+?)=(.+?:\d+)` matches with an `=` no later, and with the same `=` a `:` no later |
| ServerList.NameAtSound | src/main/kotlin/dev/mr3n/vcb/cli/App.kt:10 | what `(.+?)=(.+?:\d+)` matches has a non-empty name of characters `.` accepts, an `=`, a host, a `:` and a maximal run of ASCII digits |
| ServerList.ValueAtFirst | src/main/kotlin/dev/mr3n/vcb/cli/App.kt:10 | the lazy host stops at the first `:` followed by a digit |
| ServerList.ValueAtSound | src/main/kotlin/dev/mr3n/vcb/cli/App.kt:10 | the value matched is host `:` digits, with the digit run maximal |
| ServerList.DigitRunSpec | src/main/kotlin/dev/mr3n/vcb/cli/App.kt:10 | `\d+` takes every digit and stops before a non-digit or at the end |
| ServerList.CommasSpec | src/main/kotlin/dev/mr3n/vcb/cli/App.kt:10 | `,*` takes every leading comma |
| ServerList.FindAllReported | src/main/kotlin/dev/mr3n/vcb/cli/App.kt:14 | each match `findAll` yields is the engine's match at its own start |
| ServerList.FindAllSuffix | src/main/kotlin/dev/mr3n/vcb/cli/App.kt:14 | after a match the search resumes at the match's end |
| ServerList.FindAllSkips | src/main/kotlin/dev/mr3n/vcb/cli/App.kt:14 | no position skipped before the first match has a match |
| ServerList.FindAllGap | src/main/kotlin/dev/mr3n/vcb/cli/App.kt:14 | no position between two yielded matches, or after the last, has a match |
| ServerList.FindAllFinds | src/main/kotlin/dev/mr3n/vcb/cli/App.kt:14 | if the pattern accepts text anywhere at or after the search start, the search yields a match |
| ServerList.FindAllNone | src/main/kotlin/dev/mr3n/vcb/cli/App.kt:14 | if the pattern accepts no text at or after the start, the search yields nothing |
| ServerList.ParseServersEmpty | src/main/kotlin/dev/mr3n/vcb/cli/App.kt:12-17 | the map is empty if and only if no text of the input has the pattern's shape, so `""` and any input without `=` give an empty map |
| ServerList.ParseServersEntries | src/main/kotlin/dev/mr3n/vcb/cli/App.kt:12-17 | every key is a non-empty name of `.` characters, and every value is host `:` digits |
| ServerList.ParseServersRendered | src/main/kotlin/dev/mr3n/vcb/cli/App.kt:12-17 | a well-formed `name=host:port,...` list parses to its entries associated in order |
| ServerList.ParseServersLastWins | src/main/kotlin/dev/mr3n/vcb/cli/App.kt:16 | in a well-formed list each name gets the address of its last entry |
| ServerList.ParseServersAbsent | src/main/kotlin/dev/mr3n/vcb/cli/App.kt:16 | a name no entry of a well-formed list carries is not in the map |
| ServerList.GroupsShaped | src/main/kotlin/dev/mr3n/vcb/cli/App.kt:16 | group 3 of a shaped match is a server name, and group 4 is host `:` port |
| ServerList.MatchAt | src/main/kotlin/dev/mr3n/vcb/cli/App.kt:10 | its contract states only that a match starts where it is tried and lies inside the input; what it matches is stated by `ServerList.MatchAtIff`, `ServerList.MatchAtShaped` and `ServerList.MatchAtFirst` |
| ServerList.FindAll | src/main/kotlin/dev/mr3n/vcb/cli/App.kt:14 | the yielded matches lie inside the input, start at or after the search start, and do not overlap, in order; which matches are yielded is stated by the `ServerList.FindAll*` lemmas |
| ServerList.Groups | src/main/kotlin/dev/mr3n/vcb/cli/App.kt:16 | group 3 and group 4 are non-empty, and for a shaped match group 3, `=` and group 4 make up group 2 |
| ServerList.ParseServers | src/main/kotlin/dev/mr3n/vcb/cli/App.kt:12-17 | the result is a map: each server name appears once; its contents are stated by `ServerList.ParseServersEmpty`, `ServerList.ParseServersEntries`, `ServerList.ParseServersRendered`, `ServerList.ParseServersLastWins` and `ServerList.ParseServersAbsent` |
| ForcedHosts.Entry | src/main/kotlin/dev/mr3n/vcb/cli/App.kt:20 | a segment gives an entry if and only if it contains `=` |
| ForcedHosts.Entries | src/main/kotlin/dev/mr3n/vcb/cli/App.kt:20 | on success there is one entry per segment; on failure the reported position is a segment's |
| ForcedHosts.ParseForcedHosts | src/main/kotlin/dev/mr3n/vcb/cli/App.kt:19-21 | on success each host appears once; on failure the reported position is one of the `,`-segments; the rest is stated by `ForcedHosts.ParseForcedHostsFailure` and the lemmas below |
| ForcedHosts.EntriesSpec | src/main/kotlin/dev/mr3n/vcb/cli/App.kt:20 | on failure, the reported segment is the first without `=`; on success, entry `j` is segment `j`'s host and servers |
| ForcedHosts.ParseForcedHostsFailure | src/main/kotlin/dev/mr3n/vcb/cli/App.kt:19-21 | the call fails if and only if some `,`-segment has no `=`, and it reports the first such segment |
| ForcedHosts.EmptySegmentFails | src/main/kotlin/dev/mr3n/vcb/cli/App.kt:20 | an empty `,`-segment makes the call fail |
| ForcedHosts.ParseForcedHostsEmpty | src/main/kotlin/dev/mr3n/vcb/cli/App.kt:20 | the empty flag fails at segment 0 |
| ForcedHosts.TrailingCommaFails | src/main/kotlin/dev/mr3n/vcb/cli/App.kt:20 | a trailing `,` makes the call fail |
| ForcedHosts.EmptyBetweenCommasFails | src/main/kotlin/dev/mr3n/vcb/cli/App.kt:20 | a leading `,` or a doubled `,,` makes the call fail |
| ForcedHosts.ParseForcedHostsLastWins | src/main/kotlin/dev/mr3n/vcb/cli/App.kt:20 | a host maps to the servers of the last segment naming it |
| ForcedHosts.ParseForcedHostsAbsent | src/main/kotlin/dev/mr3n/vcb/cli/App.kt:20 | a host no segment names is absent |
| ForcedHosts.ParseForcedHostsOrder | src/main/kotlin/dev/mr3n/vcb/cli/App.kt:20 | hosts appear once each, in the order of their first segment |
| ForcedHosts.ParseForcedHostsValues | src/main/kotlin/dev/mr3n/vcb/cli/App.kt:20 | every entry comes from a segment with `=`: the key is the text before the first `=`, and the servers are non-empty, free of `+`, and join with `+` back to piece 1 |
| ForcedHosts.HostAndPiece | src/main/kotlin/dev/mr3n/vcb/cli/App.kt:20 | the host is the text before the first `=`; piece 1 runs from there to the next `=` or the end, so later pieces are dropped |
| ForcedHosts.ServersSpec | src/main/kotlin/dev/mr3n/vcb/cli/App.kt:20 | a server list is non-empty, free of `+`, and joins back to piece 1 |
| ForcedHosts.ParseForcedHostsRendered | src/main/kotlin/dev/mr3n/vcb/cli/App.kt:19-21 | a well-formed, non-empty list of `host=a+b+...` entries joined with `,` parses to its entries associated in order, with each server list kept in order |
| ForcedHosts.EntriesRendered | src/main/kotlin/dev/mr3n/vcb/cli/App.kt:20 | the segments of well-formed entries give back exactly those entries |
| Cli.Defaults | src/main/kotlin/dev/mr3n/vcb/cli/App.kt:29-57 | a constant holding every option's default; its values are stated, through assembly, by `Configuration.DefaultConfiguration` |
| Cli.ToBooleanStrictOrNull | src/main/kotlin/dev/mr3n/vcb/cli/App.kt:27 | the strict conversion succeeds only on the exact texts of `true` and `false`, and gives the value written |
| Cli.ToBooleanStrictOrNullRoundTrip | src/main/kotlin/dev/mr3n/vcb/cli/App.kt:27 | the text of a boolean converts back to it |
| Cli.ExplicitBoolean | src/main/kotlin/dev/mr3n/vcb/cli/App.kt:27 | the option's value is false if and only if the text is exactly `false` |
| Cli.ExplicitBooleanExamples | src/main/kotlin/dev/mr3n/vcb/cli/App.kt:27 | `true` gives true, `false` gives false, and `True`, `FALSE`, `yes` and the empty text give true |
| Configuration.TryOrder | src/main/kotlin/dev/mr3n/vcb/cli/App.kt:75 | the `try` list has one more element than the option has commas, and joins with `,` back to the option |
| Configuration.TryOrderRoundTrip | src/main/kotlin/dev/mr3n/vcb/cli/App.kt:75 | any non-empty list of comma-free names, empty names included, is what its `,`-join splits to |
| Configuration.Assemble | src/main/kotlin/dev/mr3n/vcb/cli/App.kt:62-97 | assembly fails exactly when the forced hosts fail, with the same error; on success the version is `2.5` and the servers, the `try` list and the forced hosts are the parsed options; the other fields are stated by `Configuration.AssembleEncoded` and the lemmas after it |
| Configuration.AssembleEncoded | src/main/kotlin/dev/mr3n/vcb/cli/App.kt:62-76 | in the tree of an assembled record, `config-version` holds `2.5`, each other top-level key holds its own option's value, and `servers`, `try` and `forced-hosts` hold the parsed options |
| Configuration.AssembleEncodedAdvanced | src/main/kotlin/dev/mr3n/vcb/cli/App.kt:77-82 | in the `advanced` table of an assembled record, each numeric key holds its own option's value |
| Configuration.AssembleEncodedAdvancedFlags | src/main/kotlin/dev/mr3n/vcb/cli/App.kt:83-90 | in the `advanced` table of an assembled record, each boolean key holds its own option's value |
| Configuration.AssembleEncodedQuery | src/main/kotlin/dev/mr3n/vcb/cli/App.kt:91-96 | in the `query` table of an assembled record, each key holds its own option's value |
| Configuration.DefaultConfiguration | src/main/kotlin/dev/mr3n/vcb/cli/App.kt:29-57 | with every option at its default, the assembled record is version `2.5`, bind `0.0.0.0:25577`, ping passthrough `DISABLED`, the two default servers, `try = ["lobby"]`, `lobby.example.com` forced to `lobby`, query port 25577, and every other field at its default |
| Configuration.DefaultTree | src/main/kotlin/dev/mr3n/vcb/cli/App.kt:39-41 | in the tree of the default record, `servers.lobby` is `127.0.0.1:25566`, `servers.factions` is `127.0.0.1:25577`, and `forced-hosts."lobby.example.com"` is `["lobby"]` |
| Configuration.DefaultServers | src/main/kotlin/dev/mr3n/vcb/cli/App.kt:39 | the default server list parses to `lobby` at `127.0.0.1:25566` and `factions` at `127.0.0.1:25577`, in that order |
| Configuration.DefaultForcedHosts | src/main/kotlin/dev/mr3n/vcb/cli/App.kt:41 | the default forced hosts parse to `lobby.example.com` with servers `["lobby"]` |
| Configuration.DefaultTry | src/main/kotlin/dev/mr3n/vcb/cli/App.kt:40 | the default `try` option gives `["lobby"]` |
| Configuration.ConfigKeysDistinct | src/main/kotlin/dev/mr3n/vcb/cli/App.kt:104-133 | the record's 16 external keys are pairwise distinct |
| Configuration.AdvancedKeysDistinct | src/main/kotlin/dev/mr3n/vcb/cli/App.kt:134-160 | the 12 keys of `advanced` are pairwise distinct |
| Configuration.QueryKeysDistinct | src/main/kotlin/dev/mr3n/vcb/cli/App.kt:162-169 | the 4 keys of `query` are pairwise distinct |
| Configuration.Encode | src/main/kotlin/dev/mr3n/vcb/cli/App.kt:104-133 | the record's tree has the 16 external keys, in declaration order; which field each holds is stated by `Configuration.EncodeLookup` |
| Configuration.EncodeLookup | src/main/kotlin/dev/mr3n/vcb/cli/App.kt:104-133 | each top-level external key looks up to its own field's value |
| Configuration.EncodeAdvancedLookup | src/main/kotlin/dev/mr3n/vcb/cli/App.kt:134-160 | each key of `advanced` looks up to its own field's value |
| Configuration.EncodeQueryLookup | src/main/kotlin/dev/mr3n/vcb/cli/App.kt:162-169 | each key of `query` looks up to its own field's value |
| Configuration.EncodeAdvanced | src/main/kotlin/dev/mr3n/vcb/cli/App.kt:134-160 | the `advanced` table has its 12 external keys, in declaration order; which field each holds is stated by `Configuration.EncodeAdvancedLookup` |
| Configuration.EncodeQuery | src/main/kotlin/dev/mr3n/vcb/cli/App.kt:162-169 | the `query` table has its 4 external keys, in declaration order; which field each holds is stated by `Configuration.EncodeQueryLookup` |
| Configuration.EncodeServers | src/main/kotlin/dev/mr3n/vcb/cli/App.kt:126 | the `servers` table has the map's keys in map order; which address each name holds is stated by `Configuration.EncodeServersLookup` |
| Configuration.EncodeServersLookup | src/main/kotlin/dev/mr3n/vcb/cli/App.kt:126 | each name looks up in the `servers` table to the address the map gives it, and a name absent from the map is absent from the table |
| Configuration.EncodeForcedHosts | src/main/kotlin/dev/mr3n/vcb/cli/App.kt:130 | the `forced-hosts` table has the map's keys in map order; which server list each host holds is stated by `Configuration.EncodeForcedHostsLookup` |
| Configuration.EncodeForcedHostsLookup | src/main/kotlin/dev/mr3n/vcb/cli/App.kt:130 | each host looks up in the `forced-hosts` table to the server list the map gives it, and a host absent from the map is absent from the table |
| Configuration.EncodeInjective | src/main/kotlin/dev/mr3n/vcb/cli/App.kt:104-169 | two records with the same tree are the same record, so the encoding loses nothing |
| Configuration.EncodeServersInjective | src/main/kotlin/dev/mr3n/vcb/cli/App.kt:126 | two server maps with the same table are equal |
| Configuration.EncodeForcedHostsInjective | src/main/kotlin/dev/mr3n/vcb/cli/App.kt:130 | two forced-host maps with the same table are equal |
| Strings.Split | src/main/kotlin/dev/mr3n/vcb/cli/App.kt:20 | `split` on one character gives at least one piece, and no piece contains the separator |
| Strings.SplitLength | src/main/kotlin/dev/mr3n/vcb/cli/App.kt:75 | `split` gives one more piece than there are separators |
| Strings.JoinSplit | src/main/kotlin/dev/mr3n/vcb/cli/App.kt:75 | joining the pieces with the separator gives back the text |
| Strings.SplitJoin | src/main/kotlin/dev/mr3n/vcb/cli/App.kt:75 | splitting the join of separator-free pieces gives back the pieces |
| Strings.SplitMany | src/main/kotlin/dev/mr3n/vcb/cli/App.kt:20 | there are at least two pieces if and only if the separator occurs |
| Strings.SplitFirst | src/main/kotlin/dev/mr3n/vcb/cli/App.kt:20 | piece 0 is the text before the first separator |
| Strings.SplitTrailing | src/main/kotlin/dev/mr3n/vcb/cli/App.kt:20 | a trailing separator leaves an empty last piece |
| Strings.SplitEmptyPiece | src/main/kotlin/dev/mr3n/vcb/cli/App.kt:20 | a leading or doubled separator leaves an empty piece |
| Strings.FirstIndex | src/main/kotlin/dev/mr3n/vcb/cli/App.kt:20 | the first position of an element, or the length when it is absent |
| AssocLists.Associate | src/main/kotlin/dev/mr3n/vcb/cli/App.kt:16 | `associate` gives a map whose keys are unique and whose entries come from the pairs |
| AssocLists.AssociateLastWins | src/main/kotlin/dev/mr3n/vcb/cli/App.kt:16 | a key maps to the value of its last pair |
| AssocLists.AssociateAbsent | src/main/kotlin/dev/mr3n/vcb/cli/App.kt:16 | a key no pair carries is absent |
| AssocLists.AssociateKeyOrder | src/main/kotlin/dev/mr3n/vcb/cli/App.kt:16 | the map has the keys of the pairs, each once, in the order of their first occurrence |
| AssocLists.AssociateDistinct | src/main/kotlin/dev/mr3n/vcb/cli/App.kt:16 | pairs with distinct keys come out unchanged |
| AssocLists.Lookup | src/main/kotlin/dev/mr3n/vcb/cli/App.kt:16 | map lookup finds nothing exactly when the key is absent |
| AssocLists.LookupFirst | src/main/kotlin/dev/mr3n/vcb/cli/App.kt:16 | a lookup gives the value of the first entry carrying the key |
| AssocLists.LookupEntry | src/main/kotlin/dev/mr3n/vcb/cli/App.kt:16 | in a map with unique keys, each entry's key looks up to that entry's value |
| AssocLists.Put | src/main/kotlin/dev/mr3n/vcb/cli/App.kt:16 | `put` keeps a present key in place and appends a new one |
| AssocLists.PutLookup | src/main/kotlin/dev/mr3n/vcb/cli/App.kt:16 | after `put`, the key maps to the new value and every other key is unchanged |

## Left out

- Option parsing by kotlinx-cli (App.kt:26-61) is not modelled: option names and short names, `.default`, the required `--output`, and the `Choice` check that the converted value is `false` or `true`, which every converted value is. `Cli.Flags` holds the values parsing produces, and `Cli.Defaults` the defaults.
- The library's conversion of option text to `Int` is not modelled. The `Int` options are `Cli.Int32` values.
- TOML rendering by ktoml (App.kt:98) is not modelled. The model stops at the tree of keyed values in `Configuration.Encode`, which is proved to lose nothing and to use distinct keys.
- Writing the output file (App.kt:99-101) is I/O and is left out.
- Strings are sequences of Unicode code points. Kotlin strings are UTF-16, but the Java regex engine also matches by code point, so only `split` on surrogate pairs could differ, and the separators here are ASCII.
- The tool does not check that the names in `try` and `forced-hosts` are server names, and neither does the model.
- The build file (`build.gradle.kts`) is not part of this model.
- ForcedHosts.ParseForcedHosts: the thrown `IndexOutOfBoundsException` is modelled as `Failure(MissingEquals(k))`, with `k` the first segment without `=`, instead of as an exception.
- ServerList.ParseServersRendered: the exact result is proved only for lists of well-formed entries. For other input, `ServerList.ParseServersEmpty`, `ServerList.ParseServersEntries` and the scanner lemmas describe what comes out.
