# RobKillSwitch presence monitor, modelled in Dafny

RobKillSwitch is a dead-man's switch. It polls the USB bus and runs a configured
shell command when a trusted device that was attached is removed. This project
models the core of `main.go`:

- the `DeviceTriplet` identity and `ToDeviceTriplet`, which keeps vendor ID,
  product ID and the standard Base64 text of the serial number;
- `getTriggers`, which reads the trust list (`vendor:product:serial` lines, with
  empty lines and `#` comments skipped) into a map from triplet to a "seen" flag
  that starts as false;
- the body of the poll loop. One enumeration result is either a failure or a list
  of devices. The loop builds the snapshot `cur` of the tracked devices that are
  attached and arms them. Then it fires the action once for every armed
  identity that is absent, and disarms it.

Modules, one per file:

- `Outcomes`: `Option` and `Result`.
- `GoText`: the parts of Go's `strings.Split`, `strconv.ParseUint(s, 16, 16)` and
  `fmt`'s `%x` that the trust list uses.
- `Base64`: the encoder of section 4 of RFC 4648, plus a reference decoder that
  shows the encoding is injective.
- `Device`: `Triplet`, `DeviceInfo` and `ToDeviceTriplet`.
- `TrustList`: `getTriggers`, as the loop method `GetTriggers`. It is proved
  equal to the line-by-line reading `ParseLines`, and the lemmas about the list
  format are stated on `ParseLines`.
- `Presence`: the per-identity trigger table `Transition`. The spec functions
  `Snapshot`, `Step` and `StepFired` describe one cycle, and `Run`, `Fires` and
  `Arms` describe a run of cycles. The class `Monitor` holds the `triggers` map
  and the count `actions` of command runs. Its method `Cycle` is the loop body:
  two loops, proved against `Step` and `StepFired`. The second loop visits the
  keys in an arbitrary order, because Go's map order is unspecified; its body is
  `Visit`.

The enumeration result of each cycle is a parameter of type
`Option<seq<DeviceInfo>>`; `None` stands for an `usb.Enumerate` error. Running the
configured command is the abstract event `Monitor.Fire`, which only counts. A fatal
error of `getTriggers` is an `Err` result. The file's text is a parameter. A Go
string is a sequence of bytes. The model uses a `string` with one character per
byte, and a device's raw serial is a `seq<byte>`.

On a failed enumeration the `continue` at main.go:195 skips the sleep, so the next
enumeration follows at once. Sleeping is not modelled; the model keeps every flag and
fires nothing on a failed enumeration.

## Model

| member | source | states |
|---|---|---|
| `Base64.CharIndexInverse` | main.go:126 | every 6-bit value's alphabet character decodes back to that value |
| `Base64.Encode` | main.go:126 | the encoding has 4 characters per started group of 3 bytes |
| `Base64.EncodeAlphabet` | main.go:126 | the encoding uses only the 64 alphabet characters and '=' |
| `Base64.RoundTrip` | main.go:126 | decoding the encoding of any byte string gives that byte string back |
| `Base64.Injective` | main.go:126 | two serials have the same encoding exactly when they are equal |
| `Base64.Examples` | main.go:126 | "ABC" encodes as "QUJD" and "ABCD" as "QUJDRA==" |
| `GoText.Split` | main.go:102 | there is one more piece than there are separators, and no piece contains the separator |
| `GoText.JoinSplit` | main.go:102 | joining the pieces with the separator gives the input back |
| `GoText.SplitNone` | main.go:107 | a text without the separator is a single piece |
| `GoText.SplitCons` | main.go:107 | a separator-free text, a separator and a rest split into that text followed by the rest's pieces |
| `GoText.SplitThree` | main.go:107-108 | three ':'-free fields joined by ':' split back into exactly those three fields |
| `GoText.FormatHex` | main.go:176 | "%x" output is non-empty, uses only the digits 0-9 and a-f, has no leading zero (it starts with '0' exactly for zero, which prints as "0") and holds no ':', '#' or newline |
| `GoText.ParseHex16` | main.go:111-118 | `strconv.ParseUint(s, 16, 16)`: empty text is rejected, accepted text consists of hex digits of either case and spells the returned value, a value above 0xFFFF is rejected, and every non-empty all-digit text up to 0xFFFF is accepted |
| `GoText.ParseFormatHex` | main.go:111-118 | parsing the "%x" text of a 16-bit value gives that value |
| `GoText.LeadingZero` | main.go:111 | a leading zero is accepted and does not change what the field parses to |
| `GoText.RejectsNonDigit` | main.go:111-118 | a field with a prefix letter, sign, underscore or blank fails to parse |
| `Device.ToDeviceTriplet` | main.go:125-127 | the triplet keeps vendor and product IDs, the serial can be decoded from it, and it holds no ':' or newline |
| `Device.SameIdentity` | main.go:125-127 | two descriptors give the same triplet if and only if vendor ID, product ID and serial agree, whatever their display strings |
| `TrustList.GetTriggers` | main.go:96-123 | the loop that fills the map returns exactly the line-by-line reading of the file, or its first fatal error |
| `TrustList.ErrorPersists` | main.go:107-118 | once a line is fatal, reading further lines cannot change the outcome |
| `TrustList.SkippedLinesIgnored` | main.go:103-106 | empty and '#' lines, wherever they are, leave the result unchanged |
| `TrustList.ParseEntry` | main.go:107-119 | a kept line is an illegal entry exactly when it does not hold exactly two ':'; with two, a bad vendor ID is reported exactly when the first field does not parse, and a bad device ID exactly when the first parses and the second does not, so a line is accepted exactly when it has two ':' and both IDs parse; a parsed triplet holds the two fields' values and the third field, which has no ':' |
| `TrustList.ParseLines` | main.go:102-122 | reading the lines in order succeeds if and only if every kept line is well formed, and then every flag is false |
| `TrustList.ParseTriggers` | main.go:96-123 | reading a file's text succeeds if and only if every kept line of it is well formed, and then every flag is false |
| `TrustList.ParseLinesKeys` | main.go:102-122 | the keys of a successful reading are exactly the kept lines' triplets, duplicates collapsed |
| `TrustList.FirstErrorReported` | main.go:107-118 | the reported error is the one of the first malformed kept line |
| `TrustList.ParseLinesMap` | main.go:119-122 | a successful reading maps each accepted triplet to false and nothing else |
| `TrustList.FormatLineFields` | main.go:176 | a "%x:%x:%s" line splits on ':' into the two hex IDs and the serial |
| `TrustList.FormatLineParses` | main.go:107-119 | a "%x:%x:%s" line written for a device is kept and reads back as that device's triplet |
| `TrustList.ListFileLines` | main.go:176 | a written list file splits into one line per device plus a final empty line |
| `TrustList.ListFileRoundTrip` | main.go:96-123 | a list file written for some devices reads back as exactly their triplets, all unseen |
| `Presence.Transition` | main.go:199-216 | after a cycle an identity's flag says whether it was present, and the action fires exactly when it was armed and is absent |
| `Presence.Snapshot` | main.go:197-204 | the snapshot holds only tracked identities |
| `Presence.NextFlags` | main.go:204-216 | a successful cycle keeps the key set |
| `Presence.FiredKeys` | main.go:209-216 | the action fires only for tracked identities |
| `Presence.Step` | main.go:192-216 | a cycle keeps the key set, and after a successful one each flag says whether its identity is in the snapshot |
| `Presence.StepFired` | main.go:192-216 | a cycle fires only for tracked, armed identities, and a failed one fires for none |
| `Presence.CycleRules` | main.go:199-216 | a present tracked identity is armed and does not fire, even if it was unarmed before; an armed absent one fires and is disarmed; an unarmed absent one stays unarmed and does not fire |
| `Presence.SeenIffPresent` | main.go:197-216 | after a successful cycle, a flag is true exactly when some attached device has that triplet |
| `Presence.FiredAreArmedAbsent` | main.go:209-216 | the identities fired for are exactly the armed ones missing from the snapshot |
| `Presence.FailedCycleChangesNothing` | main.go:192-196 | a failed enumeration changes no flag and fires nothing |
| `Presence.UntrackedDevicesIgnored` | main.go:199-203 | adding attached devices that are not tracked changes neither the flags nor the firings |
| `Presence.Run` | main.go:191-218 | no run of cycles adds or removes a tracked identity |
| `Presence.RunAppend` | main.go:191-218 | a run split in two is its second part run from the state the first part left, and their firings add up |
| `Presence.OneFirePerArming` | main.go:204-216 | over any run, firings for an identity plus 1 if it is still armed at the end equal its armings plus 1 if it started armed |
| `Presence.NeverAttachedNeverFires` | main.go:209-211 | an identity that starts unarmed and is never attached never fires and stays unarmed |
| `Presence.FailedEnumerationFlags` | main.go:192-196 | inserting a failed enumeration anywhere in a run does not change the final flags |
| `Presence.FailedEnumerationInvisible` | main.go:192-196 | inserting a failed enumeration anywhere in a run changes neither the total number of firings nor any identity's count |
| `Presence.AttachThenDetach` | main.go:204-216 | attaching an unarmed device and then removing it fires once and ends disarmed |
| `Presence.StaysAway` | main.go:209-211 | an unarmed device that stays away does not fire and stays unarmed |
| `Presence.Rearm` | main.go:204-216 | attach, remove, stay away, reattach, remove: the action fires exactly twice |
| `Presence.Monitor.constructor` | main.go:186 | the monitor starts from the trust map with no action run, and its tracked key set is fixed |
| `Presence.Monitor.Fire` | main.go:212-213 | running the command adds one to the number of actions |
| `Presence.Monitor.ArmPresent` | main.go:197-208 | the first loop computes the snapshot and sets exactly the snapshot's flags to true |
| `Presence.Monitor.FireAbsent` | main.go:209-216 | the second loop, in any key order, fires once per armed identity outside the snapshot and disarms exactly those |
| `Presence.Monitor.Visit` | main.go:209-215 | one visit of the second loop fires and disarms the key exactly when it is armed and absent, and changes nothing else |
| `Presence.Monitor.Cycle` | main.go:192-216 | one cycle leaves the flags as `Step` gives them, fires once for each member of `StepFired`, and keeps the key set |
| `Presence.Monitor.Poll` | main.go:191-218 | n iterations of the loop leave the flags as `Run` gives them, run the command `TotalFires` times, and fire for each identity exactly `Fires` times, so the per-identity run lemmas hold of the loop |

## Left out

- INI configuration loading (`getConf`, `FailOnNoSection`, `FailOnNoKey`, main.go:64-94): a wrapper over the `gopkg.in/ini.v1` library, whose code is not part of this model.
- Reading the list file (`os.ReadFile`, main.go:98) and its read error: `GetTriggers` takes the file's text.
- Interactive enrolment (main.go:150-185): driven by standard input and output. Only its line format `%x:%x:%s` (main.go:176) is modelled, by `FormatLine` and `ListFile`, as the inverse of the list reader.
- `usb.Enumerate` (main.go:152, 192): a foreign library. Each cycle's result is the parameter `Option<seq<DeviceInfo>>`. `DeviceInfo` keeps only vendor ID, product ID, serial, manufacturer and product; the library's other fields play no part.
- `cmdExecuter` and `exec.Command` (main.go:133-139): a subprocess whose result is ignored. It is the counting event `Monitor.Fire`; the shell and command strings are not modelled.
- `IsWindows` and choosing the shell (main.go:129-131, 187-190), the coloured logging helpers (main.go:49-62), and the version banner and argument handling (main.go:142-149).
- `time.Sleep` (main.go:217) and the endlessness of the loop: `Monitor.Poll` runs as many iterations as it is given enumeration results.
- The two error kinds of `strconv.ParseUint` (syntax and range): `ParseHex16` returns `None` for both, because `getTriggers` treats both as the same fatal error.
