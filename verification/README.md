# Verification of unifi-stubd

unifi-stubd presents a Linux or FreeBSD host to a UniFi controller as a switch. This project
models its protocol and data logic in Dafny and proves what the code is relied on for:
that a device only calls itself managed after the controller answered for that very key and URL,
that no interleaving of the daemon and the SSH shim can spoil the state file, that retries keep
their distance whatever the controller sends, that packets survive a round trip, that every
bridge member keeps a port of its own when ports suffice, that topology edges are given one
direction, and that migrated configurations mean what they meant.

## Modules

| module | what it models |
|---|---|
| Basics, Text, Runes | optional values; byte-level texts (trimming, splitting, hex); texts as runes |
| Adoption | the persisted store, its fields, their checks, and merging an update onto a base |
| EnvFile | the state file as text: printing, reading, and which files load |
| Controller | what a controller response asks for; the file that is loaded, saved and reset |
| Lifecycle, Resets | the heartbeat loop and the SSH shim as a transition system over one file; what a reset is worth while a heartbeat is under way |
| Tokens, Shell, Commands | quoting and tokenizing; the mutually recursive command interpreter; what each command line does |
| Schedule | controller hints, the immediate latch, exponential backoff and jitter over 64-bit durations |
| Packet | TNBU framing, PKCS#7 padding (section 6.3 of RFC 5652), the encoder and both decoders |
| YamlTree, Migrate, MigrationResult | overlaying profile trees; in-place migration of old configuration keys; when it is refused, what every setting becomes and what is reported |
| Ports, PortDetails | building a port list and editing it by overrides and configured neighbors; every field of the ports that come out |
| MemberOrder, Members, Classify | the order of bridge members; what a snapshot says of each, whatever order its maps are walked in; their roles |
| Observe, Assignment, Capacity, Placement | handing ports to members in place; what each port shows; when every member has its own; which port it is, from the names |
| Topology, Directions, NeighborRecords | one neighbor per port, then one direction per neighbor; what is known of a neighbor and what is reported |

Code that works in place is a class or a method over an array, proved equal to a function of the
old state; what that function guarantees is proved beside it, in terms that do not use it: a case
table of the merged state, a closed form of the migrated document, the words of a command line, the
rank of a name. Map iteration is a nondeterministic
choice of the next key, so order independence is a theorem and not an assumption.

## Findings

Three expectations do not hold of the code as stated; each is given as an exact condition.

- A factory reset over SSH can be undone by a heartbeat that is already under way.
  `Resets.ResetSurvivesIff` and `Resets.ResetBeforeSendSurvivesIff` say, for every reachable state and
  every response, exactly when it stands: always against upgrade, command, setdefault and a refused
  setparam; against a noop when the device was unkeyed or already connected; against a setparam when
  the device already agrees with all it is told, or when saving it would be refused.
  `Resets.SomeDeviceLosesItsReset` gives a run that loses one.
- A jittered retry can deviate by more than the configured percentage near the end of the 64-bit
  range, because delay plus window overflows (`Schedule.JitterWithinPercentIff`).
  `Schedule.JitterLeavesThePercentage` gives a valid configuration and a run of 63 failures whose last
  retry comes after ten seconds.
- Kept topology edges of one neighbor can point both ways when an upstream edge wins after two
  downstream ones, since only one earlier edge is remembered (`Directions.DisagreeIff`,
  `Topology.TopologyAgreesIff`). `Topology.ResolutionCanDisagree` gives the port list.

A state file whose only assignment spells USE_AES_GCM as false loads as the blank store, which
saving then refuses (`EnvFile.BlankStoreFile`, `EnvFile.LoadedStoreResaves`).

## Model

| member | source | states |
|---|---|---|
| Adoption.Merge | internal/adoption/env.go:210-246 | walking the field table gives the merged store, and reports a change exactly when the result differs from the base |
| Adoption.MergedState | internal/adoption/env.go:210-246 | the state after a merge by cases of base and update: a new URL, a new key or any controller key leads to adopting with a key and provisioning without; otherwise which states are taken and when the base state stays |
| Adoption.MergedFields | internal/adoption/env.go:239-246 | every other field is the one the update sets, else the one of the base, and GCM once on stays on |
| Adoption.LocalUpdateState | internal/adoptionssh/state.go:30-39 | what an SSH update makes of a store: its URL, its key, and its state |
| Adoption.AuthKeysEqualIff | internal/adoption/env.go:185-204 | two key texts are equal exactly when they are the same text or stand for the same sixteen bytes |
| Adoption.ValidAuthKeyIff | internal/adoption/env.go:112-131 | an individual key is exactly 16 raw bytes where allowed or 32 hexadecimal digits, and not the default key |
| Adoption.SetThenGet | internal/adoption/fields.go:17-63 | setting a field of the table changes that field and no other |
| Adoption.MergeConfirmsOnlyTheBaseIdentity | internal/adoption/env.go:210-246 | a merge that ends connected keeps the key bytes and URL of its base, and the base was connected or the update confirms it |
| Adoption.MergeConnectedIff | internal/adoption/env.go:210-246 | exactly when a keyed store merges to connected |
| Adoption.RepeatedLocalUpdateIsNoOp | internal/adoption/env.go:210-246 | sending the same identity over SSH again changes nothing |
| Adoption.ValidKeyHasWireKey | internal/adoption/env.go:112-131 | every key text the file checks accept yields a 16-byte key for the sender, never the public default |
| EnvFile.ReadStore | internal/adoption/env.go:16-67 | the reading loop over lines with its seen set gives the parse of the text, with its error cases |
| EnvFile.PrintStore | internal/adoption/env.go:133-175 | the printing loop gives the canonical text exactly for stores fit to persist |
| EnvFile.SavedStoreLoads | internal/adoption/env.go:133-171 | every store that is saved loads back unchanged |
| EnvFile.LoadedStoreResaves | internal/adoption/env.go:16-67 | a file that loads is refused on saving exactly when it held nothing, and otherwise saves to a text that loads to the same store |
| EnvFile.BlankStoreFile | internal/adoption/fields.go:40-52 | a file assigning only a false cipher flag loads as the blank store |
| EnvFile.FileLoadsIff | internal/adoption/env.go:16-67 | exactly which files load, and that the store is what the lines say in any order |
| EnvFile.ReadLinesMeans | internal/adoption/env.go:25-57 | reading a run of lines succeeds exactly when each is good and no field is assigned twice, and fills in those fields |
| EnvFile.PrintedLineReadsBack | internal/adoption/env.go:139-147 | a printed line reads as the assignment it was printed from |
| EnvFile.KeyValueLines | internal/adoption/env.go:36-61 | what a trimmed line with an equals sign is read as, key by key |
| EnvFile.OtherLines | internal/adoption/env.go:25-39 | what every other line is: skipped, or refused and why |
| EnvFile.FirstFaultIsReported | internal/adoption/env.go:24-62 | a file is refused for its first wrong line, whatever follows |
| EnvFile.GoodLinesRefused | internal/adoption/env.go:63-66 | a file of good lines is refused only when it assigns nothing or an inconsistent store |
| EnvFile.PersistableIff | internal/adoption/env.go:69-175 | exactly which stores may be saved, field by field |
| EnvFile.PrintedText | internal/adoption/env.go:140-146 | the text of a saved store, line by line |
| Text.TrimSpaceIs | internal/adoption/env.go:25 | trimming takes white space off both ends, all of it and nothing else |
| Runes.TrimSpaceIs | internal/adoptionssh/parse.go:12 | the same for the white space around a command |
| Text.JoinedSplits | internal/adoption/env.go:24 | splitting a text gives back the lines it was joined from |
| Text.SplitJoins | internal/adoption/mgmtcfg.go:23 | joining the lines a text was split into gives the text back |
| Text.HexDecodeInvertsEncode | internal/adoption/env.go:194-204 | decoding hexadecimal text inverts encoding for all bytes |
| Text.HexDecodesIff | internal/adoption/env.go:117-122 | exactly an even number of digits of either case decodes |
| Controller.ParseMgmtCFG | internal/adoption/mgmtcfg.go:18-46 | the loop over lines gives the store they set, or refuses the block |
| Controller.MgmtStoreIsAllowListed | internal/adoption/mgmtcfg.go:18-84 | whatever text is sent, only the allow-listed fields are taken and their values are valid |
| Controller.MgmtKeyValueLine | internal/adoption/mgmtcfg.go:28-84 | what a line key=value does: a valid value of an allow-listed key is taken trimmed, an invalid one refuses the block, any other key is ignored |
| Controller.MgmtOtherLine | internal/adoption/mgmtcfg.go:28-34 | a line without an equals sign is ignored unless it is too long |
| Controller.MgmtBlockGrows | internal/adoption/mgmtcfg.go:18-46 | lines are read in order, each on top of the ones before, within the limits on the block |
| Controller.StateFile.LoadEnv | internal/adoption/env.go:16-67 | loading reads the current contents, or reports them missing or broken |
| Controller.StateFile.SaveEnv | internal/adoption/env.go:133-150 | the file becomes the printed store or stays as it was; only stores fit to persist are written, and on a reliable file all of them |
| Controller.StateFile.ResetEnv | internal/adoption/env.go:177-183 | the file becomes the factory store, always on a reliable file, or stays as it was |
| Controller.UpdateAdoptionState | cmd/unifi-stubd/adoption.go:48-101 | what a response writes, when that succeeds, the store carried on with, and how a reset request was disposed of |
| Controller.TargetByType | cmd/unifi-stubd/adoption.go:48-93 | the store each type of response asks for, field by field, and which responses are none |
| Controller.AlreadyFactoryIff | cmd/unifi-stubd/adoption.go:95-101 | the blank store and the factory store are the two a reset has nothing to clear in |
| Controller.FactoryStoreIsPersistable | internal/adoption/env.go:177-183 | the factory store always passes the checks of saving and loads back |
| Lifecycle.StepKeepsInv | cmd/unifi-stubd/serve_presence.go:19-112 | every load, send, answer, apply and SSH step keeps the soundness of file, daemon, session and log |
| Lifecycle.RunsKeepInv | cmd/unifi-stubd/serve_presence.go:19-112 | every interleaving from no state file keeps that soundness, stale bases included |
| Lifecycle.ManagedIsConfirmed | cmd/unifi-stubd/device_payload.go:76-87 | managed is reported only after an earlier heartbeat with the same key and URL was answered |
| Lifecycle.FileStaysSound | cmd/unifi-stubd/adoption.go:25-93 | the file is absent or loads, is never failed, has a usable key, and is connected only for an answered key and URL |
| Lifecycle.LoadingNeverFails | cmd/unifi-stubd/adoption.go:25-36 | in every reachable state the daemon's load succeeds and its key selection too |
| Lifecycle.SoundStoreHasSenderKey | cmd/unifi-stubd/inform.go:69-128 | the sender's own key checks never refuse a store the file checks accepted, and the default key is used exactly when unadopted |
| Lifecycle.DefaultKeyOnlyWhileUnadopted | cmd/unifi-stubd/inform.go:28-104 | the public default key is sent exactly by unadopted heartbeats and never under GCM |
| Lifecycle.MergedIsSound | internal/adoption/env.go:210-246 | merging onto a sound base gives a sound store if it can be saved |
| Lifecycle.TargetIsSound | cmd/unifi-stubd/adoption.go:48-93 | what an answer makes of a sound base is sound if it can be saved |
| Lifecycle.SshMergeIsSound | internal/adoptionssh/state.go:14-48 | what the SSH shim merges onto a sound store is sound if it can be saved |
| Lifecycle.DaemonIsAnswered | cmd/unifi-stubd/serve_heartbeat.go:32-131 | taking a response keeps the invariant, a confirmation being logged for the key and URL it answers |
| Lifecycle.ParsedUpdate | internal/adoption/response.go:20-115 | only noop and setparam confirm, and only setdefault asks for the factory state |
| Lifecycle.HeartbeatSent | cmd/unifi-stubd/inform.go:28-104 | the key, URL, cipher and reported state of every heartbeat, by the store it is sent for |
| Lifecycle.FileIsFound | cmd/unifi-stubd/adoption.go:25-36 | in every reachable state the daemon and the shim load the stored identity, or a factory device and a blank one without a file |
| Lifecycle.DaemonMoves | cmd/unifi-stubd/serve_presence.go:43-112 | what loading, hearing nothing and restarting do in every reachable state |
| Lifecycle.AnswerReceived | cmd/unifi-stubd/serve_heartbeat.go:32-131 | what a response does to a waiting daemon and what is logged for it |
| Lifecycle.AnswerApplied | cmd/unifi-stubd/adoption.go:48-93 | the file after an answer is applied, and when the daemon stops |
| Resets.ResetSurvivesIff | cmd/unifi-stubd/serve_heartbeat.go:32-131 | in every reachable state with a sent heartbeat: exactly when a reset written before or after the answer arrives is still there once it is applied, by the base store and the response |
| Resets.ResetBeforeSendSurvivesIff | cmd/unifi-stubd/serve_presence.go:43-100 | the same for a reset between the daemon's load and its send, which also stands when there is no URL to send to |
| Resets.LeavesResetByType | cmd/unifi-stubd/adoption.go:48-93 | the condition for each type of response |
| Resets.AnswerLeavesResetIff | cmd/unifi-stubd/adoption.go:48-93 | what applying a response makes of a file just reset, for every savable base |
| Resets.ChangeIsStorableIff | internal/adoption/env.go:152-175 | a change a device is told of can be saved exactly when no control byte is told and GCM is not turned on without a key |
| Resets.MergedIsBaseIff | internal/adoption/env.go:210-246 | a confirmation changes nothing exactly when the base agrees with all it tells and is in the state it leads to |
| Resets.ResetIsLost | internal/adoptionssh/state.go:52-66 | for every adoptable URL and key: the run of adoption, heartbeat, noop, reset and apply that ends connected and not reset |
| Resets.SomeDeviceLosesItsReset | internal/adoptionssh/state.go:52-66 | the same run for one URL and key |
| Resets.ManagedIsReached | cmd/unifi-stubd/device_payload.go:76-87 | a run whose second heartbeat reports managed, after the first was answered |
| Controller.MgmtStoreIsTrimmed | internal/adoption/mgmtcfg.go:18-46 | whatever text is sent, the values taken carry no outer blanks |
| Tokens.SplitCommands | internal/adoptionssh/parse.go:7-18 | the loop over separators gives the non-blank trimmed commands |
| Tokens.CommandFields | internal/adoptionssh/parse.go:21-61 | the rune loop with quote and escape flags gives the fields of the line |
| Tokens.FieldsFit | internal/adoptionssh/parse.go:21-61 | fields are never empty and joined again are no longer than the input |
| Tokens.TailIsShorter | internal/adoptionssh/handler.go:45-60 | dropping leading fields and joining the rest is strictly shorter than the input |
| Tokens.FieldsInvertEncoding | internal/adoptionssh/parse.go:21-61 | tokenizing inverts both backslash escaping and quoting for any list of fields |
| Tokens.AnyBlanksSeparate | internal/adoptionssh/parse.go:50-51 | any run of spaces, tabs, carriage returns and newlines separates words as one space does, and is nothing at the start |
| Tokens.TrailingBackslash | internal/adoptionssh/parse.go:56-58 | a backslash at the end of a line stands for itself |
| Tokens.UnclosedQuote | internal/adoptionssh/parse.go:42-60 | a quote left open runs to the end of the line |
| Shell.InnerIsShorter | internal/adoptionssh/handler.go:45-60 | the line a nested shell re-parses is strictly shorter, the measure of both interpreters |
| Shell.Handler.SaveState | internal/adoptionssh/state.go:14-48 | the shim's load, merge and save; nothing happens without a URL and a key or when the file is broken |
| Shell.Handler.ResetState | internal/adoptionssh/state.go:52-66 | the shim's reset writes the factory store or nothing |
| Shell.Handler.Execute | internal/adoptionssh/handler.go:14-25 | replies, exit code and file after a line equal running its script, stopping at the first failed state change; on a reliable file no write fails |
| Shell.Handler.ExecuteOne | internal/adoptionssh/handler.go:45-117 | the same for one command, nested shells included |
| Shell.RunScriptConcat | internal/adoptionssh/handler.go:14-25 | running two scripts one after the other is running their concatenation, unless the first fails |
| Commands.SetAdoptStores | internal/adoptionssh/commands.go:18-33 | a set-adopt line stores exactly its URL and its key over the loaded store, or fails and leaves the file |
| Commands.SetAdoptOnNewDevice | internal/adoptionssh/state.go:14-48 | without a file it leaves exactly that URL and key under adopting, for exactly the acceptable URLs and keys |
| Commands.SetInformStores | internal/adoptionssh/commands.go:53-84 | set-inform, mca-cli-op and their subcommand forms store the first inform URL of the line and no key |
| Commands.ResetClears | internal/adoptionssh/handler.go:84-90 | reset2defaults, restore-default and their subcommand forms leave the factory store |
| Commands.ReadOnlyAnswers | internal/adoptionssh/handler.go:65-101 | what each command that only reads answers, with the file left alone |
| Commands.IgnoredAnswers | internal/adoptionssh/commands.go:44-70 | ubntbox and unknown subcommands are acknowledged only |
| Commands.UnknownCommand | internal/adoptionssh/handler.go:102-115 | any other command stores the first inform URL of the line, or is acknowledged only |
| Commands.NestedShell | internal/adoptionssh/handler.go:57-61 | a shell told to run a line asks for what the line asks for |
| Commands.SudoAlone | internal/adoptionssh/handler.go:50-55 | sudo without a command is acknowledged |
| Commands.LoneScript | internal/adoptionssh/handler.go:45-61 | a line of one command, with or without sudo, asks for what the command asks for |
| Commands.ChainedScript | internal/adoptionssh/parse.go:7-18 | commands joined by a semicolon, a newline or a double ampersand run one after the other |
| Commands.SpelledLine | internal/adoptionssh/parse.go:21-61 | a line spelled from words, bare, escaped or quoted, says those words |
| Commands.SpelledSudoLine | internal/adoptionssh/handler.go:50-55 | so does one with sudo in front |
| Commands.FindsFirstURL | internal/adoptionssh/parse.go:64-71 | the first word that is an HTTP URL with an inform path is found |
| Commands.BaseIs | internal/adoptionssh/handler.go:63 | a command is known by its last path element |
| Commands.SameWhiteSpace | internal/adoptionssh/parse.go:12 | the white space trimmed from command lines and from file lines is the same, once written as bytes |
| Shell.ScriptIsSteps | internal/adoptionssh/commands.go:7-86 | whatever line is sent, the file ends as some sequence of the lifecycle's SSH steps leaves it |
| Shell.CommandsKeepFileSound | internal/adoptionssh/state.go:14-66 | after any run, any further command line keeps the file loadable, never failed, and connected only for an answered identity |
| Schedule.Schedule.constructor | internal/inform/schedule.go:52-62 | a validated configuration starts at its base interval |
| Schedule.Schedule.Reset | internal/inform/schedule.go:110-117 | reset returns to the initial state |
| Schedule.Schedule.SuccessWithOptions | internal/inform/schedule.go:125-156 | new interval, latch and decision after an answer, as a function of the old ones |
| Schedule.Schedule.Failure | internal/inform/schedule.go:158-175 | the saturating doubling loop yields the capped power-of-two delay, with no overflow, then jitter |
| Schedule.Schedule.Jitter | internal/inform/schedule.go:189-202 | jitter by the drawn offset with 64-bit wrap-around, its random bound always positive when drawn |
| Schedule.DrawsAreOffsets | internal/inform/schedule.go:197-200 | a draw stays within the window, and every offset of the window can be drawn |
| Schedule.BackoffShape | internal/inform/schedule.go:158-175 | after k failures the delay is the smaller of 2^k intervals and the ceiling, never falls, and is constant from the 63rd on |
| Schedule.FailureDelayInBounds | internal/inform/schedule.go:158-212 | whatever is drawn, and even where arithmetic wraps, a retry waits between the interval and the ceiling |
| Schedule.JitterWithinPercentIff | internal/inform/schedule.go:189-202 | every draw stays within the percentage exactly when delay plus window fits 64 bits or the interval is that close |
| Schedule.FailuresInARow | internal/inform/schedule.go:158-187 | in a run of failures every retry is the jittered delay for its count of failures |
| Schedule.JitterLeavesThePercentage | internal/inform/schedule.go:189-202 | a valid configuration and a run of 63 failures whose last draw overflows and leaves the percentage |
| Schedule.EffectiveStaysBounded | internal/inform/schedule.go:64-142 | the hint bounds are never empty, and every state of every run has the base interval or one inside them |
| Schedule.StepLatch | internal/inform/schedule.go:125-187 | an immediate decision needs an open latch and closes it; any other delay is at least its interval |
| Schedule.NoTwoImmediateInARow | internal/inform/schedule.go:102-187 | no two consecutive decisions are immediate, so one of any two delays is at least its interval |
| Schedule.RunsTakeTheirTime | internal/inform/schedule.go:102-187 | n decisions take at least floor(n/2) times the shortest interval, whatever the controller sends |
| Schedule.Heartbeat | cmd/unifi-stubd/serve_heartbeat.go:32-142 | one heartbeat moves the schedule as the step for its result does and keeps it bounded |
| Schedule.AnswerIs | internal/inform/schedule.go:125-154 | an answer in full: a hint inside the bounds becomes the interval, one outside the nearer bound; the next delay, the latch and every flag |
| Schedule.FailureIs | internal/inform/schedule.go:158-212 | a failure in full: the doubled interval under the ceiling, moved by the draw and kept within the two |
| Schedule.ResetIs | internal/inform/schedule.go:104-115 | looking changes nothing; a reset starts over |
| Schedule.HeartbeatMeans | cmd/unifi-stubd/serve_heartbeat.go:32-142 | what a heartbeat that is unsent, lost, blank, refused or answered does to the schedule |
| Packet.Pkcs7Pad | internal/inform/padding.go:6-16 | the appending loop gives the padded text |
| Packet.Pkcs7Unpad | internal/inform/padding.go:19-33 | the scan of the tail gives the unpadded text or refuses |
| Packet.UnpadInvertsPad | internal/inform/padding.go:6-33 | unpadding inverts padding for every block size from 1 to 255 |
| Packet.UnpadAcceptsIff | internal/inform/padding.go:19-33 | unpadding accepts exactly what padding produces, and padding restores it |
| Packet.MakeHeader | internal/inform/packet.go:81-91 | the writes into the 40-byte buffer give the header of the fields |
| Packet.ParsedPacketIsReproduced | internal/inform/decode.go:90-149 | every accepted packet equals its header printed again followed by its payload |
| Packet.HeaderParses | internal/inform/decode.go:90-133 | a printed header followed by its payload parses back to the same fields |
| Packet.ResponseAcceptedIff | internal/inform/decode.go:43-78 | a response is accepted exactly when the neutral decoder accepts it, it uses the request's cipher and is not compressed |
| Packet.HeaderBytes | internal/inform/packet.go:81-91 | the header at its offsets, numbers big-endian |
| Packet.PacketAcceptedIff | internal/inform/decode.go:90-149 | exactly which packets are accepted and as what; unencrypted ones, unknown flags and short GCM bodies are refused as such |
| Packet.EnvelopeErrors | internal/inform/decode.go:90-118 | which check refuses a packet that is not framed |
| Packet.DecodesIff | internal/inform/decode.go:12-35 | a packet decodes to a payload exactly when it is accepted, not Snappy, and its body deciphers and inflates to it |
| Packet.EncodeJSON | internal/inform/encode.go:13-72 | building flags, nonce, body and header step by step gives the wire form or the first error |
| Packet.DecryptInvertsEncrypt | internal/inform/crypto.go:11-83 | for either cipher the body the encoder seals is within the decoder's limits and comes back |
| Packet.DecodeInvertsEncode | internal/inform/encode.go:13-72 | whatever the encoder emits, the decoder accepts with the same MAC, nonce, flags and payload |
| Packet.EncodeAcceptsIff | internal/inform/encode.go:20-42 | uncompressed payloads are refused only above the plaintext limit; under GCM a body is accepted exactly when its sealed form is within the decoder's limit |
| Packet.EncodeRefuses | internal/inform/encode.go:13-46 | the first thing wrong with what is to be encoded is what is reported, and nothing else is refused |
| YamlTree.MergeYAMLNodes | internal/device/profile_yaml.go:16-40 | the recursive merge over a copied list equals the tree merge |
| YamlTree.MergedChild | internal/device/profile_yaml.go:16-40 | each key of the result holds the overlay's value, merged onto the base's when both have it |
| YamlTree.MergedKeys | internal/device/profile_yaml.go:16-53 | base keys first in base order, then the overlay's new ones in its order |
| YamlTree.MergeIsWellFormed | internal/device/profile_yaml.go:16-53 | merging trees with unique keys gives a tree with unique keys |
| YamlTree.OverlayWins | internal/device/profile_yaml.go:16-40 | at every path the overlay has, the result is its value merged onto the base's |
| YamlTree.OverlayReplaces | internal/device/profile_yaml.go:23-35 | where the overlay has a scalar or list, or the base no mapping, the result is the overlay's node |
| YamlTree.MappingsMerge | internal/device/profile_yaml.go:26-37 | where both have a mapping the result is one, with the base's tag and key nodes first, then the overlay's new ones |
| YamlTree.BaseShowsThrough | internal/device/profile_yaml.go:16-40 | at every path the overlay lacks, the base shows unless the overlay replaced a node above |
| YamlTree.MergeWithItself | internal/device/profile_yaml.go:16-40 | a tree merged onto itself is itself |
| YamlTree.MergeTwice | internal/device/profile_yaml.go:16-40 | applying an overlay twice is applying it once |
| Migrate.Migration.MigrateScalarAlias | internal/config/migrate.go:89-123 | the in-place edit is the alias step on the document and its list of actions |
| Migrate.Migration.MigrateOperationMode | internal/config/migrate.go:125-133 | the in-place edit is the mode step |
| Migrate.Migration.MigrateBridgeAlias | internal/config/migrate.go:135-177 | the in-place edit, creating the nested mapping when needed, is the bridge step |
| Migrate.Migration.MigrateNodeAlias | internal/config/migrate.go:179-198 | the in-place edit is the node step |
| Migrate.Migration.MigrateData | internal/config/migrate.go:21-57 | all steps in order, failing as the first that fails, or when the changed document does not decode |
| Migrate.ScalarAliasDoes | internal/config/migrate.go:89-123 | the alias is gone, the rest stands, and the target says what each non-blank source said |
| Migrate.OperationModeDoes | internal/config/migrate.go:125-133 | the normalized mode is unchanged and a second step does nothing |
| Migrate.BridgeAliasDoes | internal/config/migrate.go:135-177 | the alias is gone or blank, the rest stands, and the effective setting is unchanged up to blanks |
| Migrate.NodeAliasDoes | internal/config/migrate.go:179-198 | the alias is gone and the target kept its own node or took the alias's |
| Migrate.MigrationShape | internal/config/migrate.go:21-231 | a migrated document has no old keys, unique keys, and every unrelated pair in order |
| Migrate.MigrationMeaning | cmd/unifi-stubd/operation_bridge.go:12-21 | bridge, uplink and mode mean what they meant, port mappings are kept, and the controller URL equals every non-blank source |
| Migrate.MigratingTwice | internal/config/migrate.go:21-57 | migrating a migrated document changes nothing and reports nothing |
| MigrationResult.MigratesIff | internal/config/migrate.go:21-57 | exactly when a migration is refused, in terms of the settings it starts from |
| MigrationResult.MigratedSettings | internal/config/migrate.go:21-57 | what every setting is afterwards, node for node; a scalar mode observe becomes bridge-observe and any other mode stays |
| MigrationResult.MigratedReports | internal/config/migrate.go:26-46 | the report in order: one entry for each alias that was there and for a renamed mode |
| MigrationResult.ReportedIffChanged | internal/config/migrate.go:47-49 | the report is empty exactly when the document comes back unchanged |
| MigrationResult.ScalarStepIs | internal/config/migrate.go:89-123 | one scalar alias: refused exactly when not foldable, else the target's node and the entry reported |
| MigrationResult.ModeStepIs | internal/config/migrate.go:125-133 | the mode step: a scalar observe is rewritten and reported, anything else is left |
| MigrationResult.BridgeStepIs | internal/config/migrate.go:135-177 | one bridge alias: what the nested mapping, its node and the alias are afterwards |
| MigrationResult.NodeStepIs | internal/config/migrate.go:179-198 | the port map alias: refused exactly when both are there and differ |
| MigrationResult.RenamedInPlace | internal/config/migrate.go:96-101 | a renamed key keeps its place |
| Ports.SwitchPortsWithLayout | internal/device/port_build.go:4-24 | the building loops give the list of the layout |
| Ports.GroupedSwitchPorts | internal/device/port_build.go:27-83 | the nested loops over groups number the ports on, or give up when the groups do not add up |
| Ports.ApplyUplinkPort | internal/device/port_build.go:104-117 | clearing and setting the marks in place leaves the chosen port as the only uplink |
| Ports.SwitchPortsAreWellFormed | internal/device/port_build.go:4-117 | every layout gives a list numbered from one with exactly one uplink, the chosen one when it exists |
| PortDetails.GroupedPort | internal/device/port_build.go:27-117 | every field of each port of a grouped layout: speed, medium, profile mark, uplink mark, name, role |
| PortDetails.PlainLayoutPort | internal/device/port_build.go:4-24 | the same without usable groups |
| PortDetails.ItoaReads | internal/device/port_build.go:85-101 | the number in a generated name is the port's |
| Ports.ApplyPortOverrides | internal/device/overrides.go:7-21 | the loop over overrides applies the setters in order to the named ports and skips the others |
| Ports.OverriddenLink | internal/device/override_apply.go:11-112 | what the ordered setters mean: disabling beats all, a speed beats link-down, a medium beats the one a speed implies |
| Ports.OverridesKeepShape | internal/device/overrides.go:7-21 | overrides keep length, numbers and uplink marks |
| PortDetails.OverriddenFields | internal/device/override_apply.go:11-112 | what an override makes of a port's texts, addresses, VLAN, WAN record, rates and counters |
| PortDetails.SetStringsDoes | internal/device/override_apply.go:20-29 | which texts an override replaces, and how they are trimmed |
| PortDetails.SetCountersDoes | internal/device/override_apply.go:54-65 | which counters an override replaces |
| PortDetails.OverridesAtPort | internal/device/overrides.go:7-21 | each port is changed by exactly the overrides that name it, in order |
| Ports.UpsertMAC | internal/device/port_neighbors.go:48-60 | the first entry with that address is merged, or the entry is appended |
| Ports.UpsertMeans | internal/device/port_neighbors.go:48-60 | a new address comes last, a known one is merged at its first entry, every other entry stays as and where it was |
| Ports.UpsertKeepsAddresses | internal/device/port_neighbors.go:48-60 | no address is lost and only the new one is added |
| Ports.NeighborsAtPort | internal/device/port_neighbors.go:23-61 | each port takes on exactly the neighbors configured for it, whatever is configured for others |
| Ports.NeighborAdds | internal/device/port_neighbors.go:30-59 | one neighbor adds one address or one infrastructure neighbor and changes nothing else of its port |
| Ports.AdjoiningLosesNothing | internal/device/port_neighbors.go:23-61 | configured neighbors make a port lose no address and no neighbor |
| Ports.UplinkGainsNeighbor | internal/device/port_neighbors.go:6-20 | on a list with one uplink exactly that port changes, by one neighbor at the end |
| PortDetails.ConfiguredNeighborsJoin | internal/device/port_neighbors.go:23-61 | each port takes on the neighbors that name it and have an address, in order |
| PortDetails.ClientJoins | internal/device/port_neighbors.go:30-95 | a client on a port, field by field: a new entry comes last, a known one is updated in place |
| PortDetails.InfrastructureJoins | internal/device/port_neighbors.go:33-47 | any other device becomes a configured neighbor with its fields |
| PortDetails.UplinkNeighborJoins | internal/device/port_neighbors.go:6-20 | the configured uplink neighbor joins the uplink port, marked as such, unless it has no address |
| Ports.ApplyPortNeighbors | internal/device/port_neighbors.go:23-63 | the loop adds each configured neighbor to its port as client entry or infrastructure neighbor |
| Ports.ApplyUplinkNeighbor | internal/device/port_neighbors.go:6-20 | the first uplink port gains the configured neighbor |
| MemberOrder.NamesCompare | internal/observe/snapshot_members.go:41-58 | on names that differ after trimming and lower-casing the sort key is a strict total order |
| MemberOrder.BeforeIff | internal/observe/snapshot_members.go:41-88 | the order in terms of names: uplink first, bridge last, then kind, then number, then text |
| MemberOrder.FirstNumberIs | internal/observe/snapshot_members.go:77-97 | the number of a name is the value of its first run of digits, or zero when that exceeds 64 bits |
| MemberOrder.NoNumberIsZero | internal/observe/snapshot_members.go:77-87 | a name without digits has number zero |
| MemberOrder.NumericOrder | internal/observe/snapshot_members.go:20-28 | members of one family are in numeric order, tap2 before tap10 |
| MemberOrder.SortingIgnoresOrder | internal/observe/snapshot_members.go:13-31 | distinct names sort to the same list whatever order the map is walked in and however they are sorted |
| MemberOrder.SortedDeviceNames | internal/observe/snapshot_members.go:13-31 | from any walk of the keys, each name once and in order |
| Members.FindByName | internal/observe/classify.go:76-90 | the exact trimmed name first, else some key equal up to case and blanks, else nothing |
| Members.FoundOnce | internal/observe/snapshot_apply.go:165-179 | with distinct keys the lookup does not depend on the walk |
| Members.RemoteMACsByBridgeMember | internal/observe/snapshot_macs.go:31-52 | the keys of the addresses learned on exactly the uplink members |
| Members.NormalizeRemoteMACSet | internal/observe/snapshot_macs.go:70-88 | the canonical keys of exactly the addresses marked as remote |
| Members.FilterRemoteMACEntries | internal/observe/snapshot_macs.go:54-66 | the entries that are not remote, in order |
| Members.LocalEntriesAre | internal/observe/snapshot_macs.go:54-66 | filtering keeps an entry exactly when it was there and is not remote |
| Members.ReadingIsOne | internal/observe/snapshot_apply.go:57-114 | two readings of a snapshot with distinct names agree on the remote set and on what every member asks for |
| Classify.ClassifyMembers | internal/observe/classify.go:10-29 | the roles by name with the sole physical candidate made uplink, whatever order the members are walked in |
| Classify.UplinkIff | internal/observe/classify.go:10-74 | a member is the uplink exactly when named so and not the bridge, or when none is named and it is the only candidate |
| Classify.RoleTable | internal/observe/classify.go:10-74 | the role of every member by its name, and when a network card is taken as the uplink |
| Classify.ApplyIgnoredMembers | internal/observe/classify.go:38-57 | known ignored members change role and unknown ones are added, whatever order the maps are walked in |
| Classify.IgnoredNeverAsks | internal/observe/classify.go:36-90 | an ignored member is ignored under every spelling of its name and never asks for a port |
| Classify.OthersKeepRole | internal/observe/classify.go:38-57 | ignoring members leaves every lookup of another member as it was |
| Runes.NormalTwice | internal/observe/classify.go:118-120 | a comparison key compares as itself, and trimming a name keeps its key |
| Observe.ApplyMemberPortObservation | internal/observe/snapshot_apply.go:130-161 | the port is cleared and then shows only what was seen of the member |
| Observe.PlaceMember | internal/observe/snapshot_apply.go:78-116 | one turn of the assignment carries out what the member asks for, or leaves the ports alone |
| Observe.ApplyDeviceMACs | internal/observe/snapshot_apply.go:52-126 | the in-place assignment equals carrying out some reading's tasks and darkening unused ports |
| Observe.ValidPinnedPortSet | internal/observe/snapshot_apply.go:183-191 | exactly the ports in range that some pin names |
| Observe.AccessIndexes | internal/observe/snapshot_apply.go:65-71 | the numbers of the ports neither uplink nor pinned, in list order, for any list |
| Observe.PlanByNumber | internal/observe/snapshot_apply.go:64-71 | on a list numbered from one those numbers are the free positions |
| Observe.FreePortsAre | internal/observe/snapshot_apply.go:65-71 | which are exactly the ports neither uplink nor pinned, in increasing order |
| Observe.UplinkIndexIsAPort | internal/observe/snapshot_apply.go:16-19 | on a list numbered from one the uplink number used is a port of the list |
| Observe.Apply | internal/observe/snapshot_apply.go:10-37 | the snapshot is laid over a copy, the given list stays as it was |
| Placement.UplinkIndexIs | internal/observe/snapshot_apply.go:16-48 | which port is the uplink |
| Placement.UplinkShownIs | internal/observe/snapshot_apply.go:20-30 | what the uplink port shows of the uplink interface |
| Placement.WithoutMembers | internal/observe/snapshot_apply.go:31-35 | without members only the uplink port changes |
| Assignment.PortShows | internal/observe/snapshot_apply.go:52-161 | every port shows exactly its last member, an unused one is dark, and the uplink keeps what was seen of it |
| Placement.PortIsCalled | internal/observe/snapshot_apply.go:52-161 | the name, interface and medium of every port, and that nothing a snapshot does not speak of changes |
| Placement.FaceSeenIs | internal/observe/snapshot_apply.go:142-161 | what is shown of an observation: state, speed while up, counters when read |
| Assignment.AccessPortIsUpIff | internal/observe/snapshot_apply.go:130-161 | a port other than the uplink is up exactly when the last member put there was seen up |
| Assignment.NoRemoteAddressShows | internal/observe/snapshot_apply.go:52-126 | no port ends with an address of the remote set, whatever order the maps are walked in |
| Assignment.OwnPortsIff | internal/observe/snapshot_apply.go:93-110 | the claims of one reading have ports of their own off the uplink exactly when their pins differ, spare the uplink, and free ports suffice for the rest |
| Assignment.ClaimsKeepTheirAddresses | internal/observe/snapshot_apply.go:52-126 | then each claim's port holds exactly its addresses, no unpinned claim takes a pinned port, and no other port holds any |
| Members.EveryClaimantAsksOnce | internal/observe/snapshot_apply.go:74-99 | in every reading each eligible member off the uplink with local addresses makes a claim with exactly those and its pin, no other member does, and none asks twice |
| Placement.ClaimantsAre | internal/observe/snapshot_apply.go:74-92 | which members claim a port: those with a local address and an access or unknown role that are not the uplink by name |
| Placement.ReportsAreUplinks | internal/observe/snapshot_apply.go:78-88 | which members report on the uplink port instead |
| Placement.RemoteAddressesAre | internal/observe/snapshot_macs.go:31-88 | the addresses kept off access ports: the marked ones, or else those learned on uplink members |
| Placement.TasksAreSeen | internal/observe/snapshot_apply.go:142-179 | what is shown of a member is what was observed under its name |
| Placement.EarlierIff | internal/observe/snapshot_members.go:13-31 | with distinct names a member is served before another exactly when its name precedes |
| Placement.MemberGetsPort | internal/observe/snapshot_apply.go:93-110 | the port of every claiming member from the names alone: its usable pin, or the n-th free port for n unpinned claimants before it, or the uplink |
| Placement.EarlierNameLowerPort | internal/observe/snapshot_apply.go:93-110 | of two unpinned members the one whose name precedes gets the lower port |
| Capacity.EveryMemberHasItsPortIff | internal/observe/snapshot_apply.go:52-126 | over the snapshot's members: each can be found on a port of its own with exactly its filtered addresses if and only if usable pins differ and spare the uplink and the others fit the free ports; pinned ones are then on their pins and nothing shows elsewhere |
| Capacity.CertainMembersKeepTheirPort | internal/observe/snapshot_apply.go:52-126 | with ambiguous roles too, a member that claims in every reading has its port when all that might claim fit |
| Capacity.ReadMembersFitIff | internal/observe/snapshot_apply.go:52-126 | the same equivalence for the members that claim in one reading |
| Capacity.HousedMeansOwnPorts | internal/observe/snapshot_apply.go:93-126 | ports cannot suffice by coincidence: when every member can be found on a port of its own, no two claims were given the same one |
| Assignment.OverflowLandsOnUplink | internal/observe/snapshot_apply.go:93-104 | when claims outnumber free ports, one lands on the uplink |
| Assignment.WalkOrderDoesNotMatter | internal/observe/snapshot_apply.go:10-126 | with distinct names two runs over one snapshot give the same ports |
| Assignment.ApplyingKeepsShape | internal/observe/snapshot_apply.go:10-37 | laying a snapshot over a list keeps length, numbers and uplink marks |
| Assignment.EveryPipelineIsWellFormed | cmd/unifi-stubd/operation_ports.go:17-73 | whatever layout is built and whatever edits follow in whatever order, numbering and the one uplink stay |
| Topology.HearNeighbors | internal/device/topology.go:76-94 | the loop fills the two maps with the merged record of each distinct neighbor |
| Topology.ResolvePortNeighbor | internal/device/topology.go:76-133 | the neighbor, warnings or conflict of one port, whatever order the maps are walked in |
| Topology.HeardExactly | internal/device/topology.go:76-94 | a neighbor is recorded exactly when a usable entry of that kind of source names it, under its own key |
| Topology.PortNeighborChosen | internal/device/topology.go:96-133 | an error exactly for two different configured neighbors; configuration wins; LLDP is believed exactly when it names one |
| NeighborRecords.SettledRecord | internal/device/topology.go:76-133 | every field of the chosen neighbor: the last word among the entries that name it, the configuration's after LLDP's |
| NeighborRecords.HeardRecord | internal/device/topology.go:205-246 | what is remembered of each neighbor, field by field |
| NeighborRecords.SettledWarns | internal/device/topology.go:96-133 | exactly what one port warns about |
| Topology.ResolveDirectionConflicts | internal/device/topology.go:135-203 | the loop with remembered indices and keep marks gives the verdict, the kept edges and the warnings |
| Topology.ResolveTopology | internal/device/topology.go:52-74 | candidate edges of all ports in order, stopping at the first conflict, then one direction for each neighbor |
| Topology.OneUplinkOneUpEdge | internal/device/topology.go:52-74 | a list with one uplink gives at most one upstream edge |
| NeighborRecords.GatheredAre | internal/device/topology.go:52-74 | exactly which candidate edges there are, and at which port resolution stops |
| NeighborRecords.GatheredWarns | internal/device/topology.go:52-74 | every warning of every port is passed on and no other |
| NeighborRecords.ConflictsNamed | internal/device/topology.go:52-203 | what a conflict names: the port and its configured neighbors, or the neighbor and both ports in order |
| NeighborRecords.ClashWarning | internal/device/topology.go:158-191 | what a resolved clash is reported as |
| NeighborRecords.SourcesRank | internal/device/topology.go:265-274 | configured sources rank alike, above LLDP, above any other |
| Topology.TopologyAgreesIff | internal/device/topology.go:52-203 | on such a list: exactly when resolution errs, and exactly when kept edges still disagree |
| Topology.TopologyKeepsTheStronger | internal/device/topology.go:135-203 | with one edge per neighbor and direction: errs exactly on two configured opposites, else keeps exactly the strictly stronger edges, which agree |
| Topology.QuietResolutionIff | internal/device/topology.go:135-203 | for any edges: no error and no new warning exactly when no neighbor is seen both ways, and then all are kept |
| Topology.ResolutionCanDisagree | internal/device/topology.go:135-203 | a well-formed list of three ports whose resolution keeps edges of one neighbor both ways |
| Directions.QuietIff | internal/device/topology.go:135-203 | the same for the walk itself |
| Directions.ClashesAre | internal/device/topology.go:135-203 | for any edges: what the walk fails at, which clashes it notes, and that an edge is dropped exactly when it fails to win one |
| Directions.VerdictIs | internal/device/topology.go:135-203 | with one upstream edge per neighbor the outcome of the walk for every edge in closed form |
| Directions.DisagreeIff | internal/device/topology.go:135-203 | the walk errs exactly on contradicting strongest sources, and kept edges disagree exactly for a forgotten downstream edge |
| Directions.StrictlyStrongerStays | internal/device/topology.go:135-203 | with one edge per direction an edge is kept exactly when strictly stronger than its opposite; ties remove both |
| Directions.SecondDownstreamEdgeIsForgotten | internal/device/topology.go:141-147 | three edges of any one neighbor of which the walk keeps two that point both ways |

## Left out

- Parsing of URLs, MAC addresses, JSON and YAML texts, and rendering of YAML nodes, are parameters; so are AES-CBC, AES-GCM and zlib, of which only that they invert each other and their lengths is assumed where a lemma says so.
- The random source is a parameter: what it yields for a bound, a coin, and a packet nonce or a failed read of one; how its values are distributed is not part of this model.
- Error texts and log output: only the kind of error is modelled.
- The state path is taken as set; the daemon's behaviour without one is not part of this model.
- Writes of the file are atomic or fail, as atomic replacement makes them, and on a file marked reliable none fails; locks, signals and transports are not modelled.
- JSON decoding of a response is reduced to which kind it is and what it carries; a body that does not decode gives no answer.
- Keys are compared as bytes, where the code compares them as normalized hex text.
- Case folding is done on ASCII letters only; names with other letters compare as written.
- The SSH shim's reply texts are values of a datatype, and its info page and file listings are not rendered.
- The failure counter of the schedule is unbounded, where the code's counter could in principle wrap.
- YAML alias nodes, document wrappers and sharing of nodes between trees: trees are values, so mutation through a shared node is not captured.
- Controller clock, traffic rates, discovery announcements and payload rows: field-by-field projections or floating point with little to prove.
- Warnings are a multiset; their final sorting by text, and the order of error key lists, is left out.
- The sort of member names is insertion; the order theorem holds for any sort.
- LLDP neighbors are read from the port list; attaching them there, and naming the uplink's source interface, touch no number or mark.
- Validation of overrides and of configured neighbors before they are applied.
- The numeric LLDP port identifier parser.
- Observe.Apply: takes any list whose first marked uplink, or the snapshot's choice, is a position of the list; on others the code indexes out of range and stops.
- Migrate.MigrationMeaning: is stated for documents whose top level and bridge mapping repeat no key and are whole pairs; on repeated keys only the first of each is looked at.
- Packet.DecodeInvertsEncode: assumes of the ciphers only inversion and lengths, and says nothing about secrecy or forgery.
