# QuotaNotify alerting engine in Dafny

QuotaNotify is a Windows tray program. It polls the local volumes and warns
the user when a monitored drive runs low on free space. This project models
its alerting engine:

- **Configuration** (`config.dfy`, module `Configuration`). The class `Config`
  starts from hard-coded defaults. It then overlays the values stored under
  `HKLM\SOFTWARE\Amalgam`, read from the 64-bit registry view or, when that
  view has no such key, from the 32-bit view. Finally it falls back to drive
  `H` when no drive was configured. The registry is an input:
  `Registry(view64, view32)`, where each view is an optional map from value
  name to a tagged registry value (`DWord`, `QWord`, `Str`, `MultiStr`,
  `Binary`). The map is keyed by the exact names the program asks for:
  Windows matches value names without regard to case, so a value stored as
  `drives` counts as the key `Drives`. The four `readRegistryKey` overloads are functions that return
  either a value or the cast exception. An exception ends the `try` block: the
  fields assigned before it keep their new values, the later ones keep their
  defaults, and the exception is recorded in `errors` (the program shows it in
  a message box). The pure specification of the whole constructor is
  `Resolve`.
- **Drive record** (`drive.dfy`, module `Drives`). The class `Drive` has a
  constant `letter` and a mutable `percentFree`, which starts at 100. It also
  models `Equals`, `GetHashCode` (unchecked 32-bit arithmetic) and the `==` and
  `!=` operators.
- **Monitoring tick** (`disk_checker.dfy`, module `Checking`). The method
  `DiskChecker.CheckDriveSpace` runs one timer tick, in these steps:
  1. It raises the timer interval to the steady interval.
  2. It walks the reported volumes, skipping those that are not ready or not
     configured.
  3. For each remaining volume it applies the three-way alert condition and
     records the new sample on the first drive with that letter.
  4. It gathers one line per alerting volume.
  5. It shows at most one combined notification, which is appended to
     `shown`.

  The tick is proved against the specification functions `Step` and `Run`.
  `Run` is a fold over the volumes in enumeration order.
- **Shared values** (`base.dfy`, module `Base`). This module holds `Option`,
  `Result`, C#'s `int` with explicit wrap-around (`Wrap32`), and `Percent`. A
  `Percent` is a C# `double` as the tick produces it: finite, positive
  infinity, or NaN. `Below` is IEEE `<`, so every comparison with NaN is false.

Behaviour of the code that a reader might not expect, and that the model
keeps:

- Drive letters are neither case-normalised nor deduplicated. A letter
  configured twice yields two drives, and only the first is ever updated.
- The overlay runs in a fixed order. The first value of the wrong registry type
  aborts every later field. No field is skipped on its own.
- A present but empty `warnMessage` replaces the default.
- A missing `Drives` value throws only after all scalar fields have been
  assigned.
- An empty string in `Drives` throws part-way through the loop. The drives
  added before it stay, and the loop that resets percentages is skipped.
- There is no file overlay (`loadFromFile` is empty) and no user-scope overlay.
- Falling-edge alerting holds when volume letters are distinct. With two ready
  volumes whose names start with the same letter, both write to the same
  drive, so a repeated tick can alert again (`SharedLetterReAlerts` gives
  such a case). `SecondTickIsSilent` and `RepeatedTick` therefore assume
  distinct letters.

## Model

| member | source | states |
|---|---|---|
| `Base.PercentOf` | DiskChecker.cs:63 | the percentage is finite exactly for a non-zero total, and then `value * total == 100 * free`, within 0..100 when free does not exceed total; `0/0` is NaN |
| `Base.Wrap32` | Drive.cs:67-69 | an unchecked `int` result agrees with the exact value modulo 2^32 and equals it when it fits |
| `Base.Below` | DiskChecker.cs:68 | C#'s `<` on doubles: ordered on finite values and below +Inf, false whenever NaN is involved (`BelowIrreflexive`, `NaNIncomparable`) |
| `Base.BelowInt` | DiskChecker.cs:68 | `percentFree < config.WarnPercent` with the `int` widened exactly to a double |
| `Base.BelowIrreflexive` | DiskChecker.cs:68 | no double is below itself, NaN included |
| `Base.NaNIncomparable` | DiskChecker.cs:68 | every `<` with a NaN operand is false |
| `Drives.Drive.constructor` | Drive.cs:42-46 | a new drive has the given letter and `PercentFree == 100` |
| `Drives.Drive.SetPercentFree` | Drive.cs:37-40 | the getter returns the value last set; the letter is a constant and cannot change |
| `Drives.Drive.PercentFree` | Drive.cs:37-39 | the `PercentFree` getter: the value the drive holds, which `SetPercentFree` and the constructor determine |
| `Drives.CharHash` | Drive.cs:68 | `char.GetHashCode()` as a wrapped `int`; `CharHashIsOr` proves it is the bitwise expression .NET computes |
| `Drives.CharHashIsOr` | Drive.cs:68 | read back as an unsigned 32-bit word, `CharHash(c)` holds exactly the bits of `(int)c \| ((int)c << 16)` for the zero-extended 16-bit code unit of `c` |
| `Drives.HalvesDisjoint` | Drive.cs:68 | for a 16-bit code unit the halves of `u \| (u << 16)` do not overlap, so its value is `u * 0x10001` |
| `Drives.CharHashUnsigned` | Drive.cs:68 | read back as unsigned, `CharHash(c)` is the code unit times 0x10001 |
| `Drives.Drive.GetHashCode` | Drive.cs:64-71 | the hash is an `int` congruent to `1000000007 * CharHash(letter)` modulo 2^32 |
| `Drives.Drive.Equals` | Drive.cs:57-62 | `Equals(Drive)`: false for null, otherwise letter equality; its properties are stated by `EqualsIsLetterEquality` and `EqualsIsEquivalence` |
| `Drives.Drive.EqualsObject` | Drive.cs:49-55 | `Equals(object)`: false for null and for an object that is not a `Drive`, otherwise letter equality; `EqualsIsLetterEquality` shows it agrees with `Equals(Drive)` |
| `Drives.Eq` | Drive.cs:73-80 | `operator ==`: same reference, then a null side, then `Equals`; characterised by `EqCases` |
| `Drives.Ne` | Drive.cs:82-85 | `operator !=`: the negation of `==` (`EqCases`) |
| `Drives.EqualsIsLetterEquality` | Drive.cs:49-62 | `Equals` holds iff the other drive is non-null with the same letter; `Equals(null)` is false; `Equals(object)` agrees with `Equals(Drive)`; `Equals` reads no mutable field, so `PercentFree` cannot affect it |
| `Drives.EqualsIsEquivalence` | Drive.cs:57-62 | `Equals` is reflexive, symmetric and transitive |
| `Drives.EqCases` | Drive.cs:73-85 | `==` is true for two nulls, false when exactly one side is null, letter equality otherwise; `!=` is its negation |
| `Drives.EqualDrivesHashAlike` | Drive.cs:64-71 | drives that are `Equals` have equal hash codes |
| `Configuration.Defaults` | Config.cs:40-47 | the constructor's defaults: 5000, 300000, 10, 100 MiB, no message, obsess off, no drive; `ResolveWithoutKey` states them as the result without a key |
| `Configuration.ReadInt` | Config.cs:121-132 | the `int` overload: the current value when the name is absent, the stored REG_DWORD when present, InvalidCast for any other registry type (`ReadPrecedence`, `BadValueAbortsRest`) |
| `Configuration.ReadBool` | Config.cs:105-119 | the `bool` overload: the current value when absent, `stored > 0` for a REG_DWORD, InvalidCast otherwise (`ReadBoolIsPositive`) |
| `Configuration.ReadString` | Config.cs:134-145 | the `string` overload: the current value when absent, the stored REG_SZ (empty included) when present, InvalidCast otherwise (`ReadStringKeepsEmpty`) |
| `Configuration.ReadStrings` | Config.cs:147-158 | the `string[]` overload: the current array when absent, the stored REG_MULTI_SZ when present, InvalidCast otherwise (`BadValueAbortsRest` at position 6) |
| `Configuration.LettersUntilEmpty` | Config.cs:88-91 | the letters the first `foreach` adds before an empty string throws; `LettersUntilEmptyOrder` states them |
| `Configuration.LeadingNonEmpty` | Config.cs:88-90 | where the first `foreach` stops: every string before it is non-empty, and the string at it (if any) is empty, where `ToCharArray()[0]` throws |
| `Configuration.ReadPrecedence` | Config.cs:105-158 | each overload returns the current value when the name is absent, and a result independent of the current value when it is present |
| `Configuration.ReadBoolIsPositive` | Config.cs:105-119 | the `bool` overload yields true iff the stored `int` is greater than 0 |
| `Configuration.ReadStringKeepsEmpty` | Config.cs:134-145 | a stored empty string replaces the current string |
| `Configuration.LettersUntilEmptyOrder` | Config.cs:88-91 | the drive loop adds the first character of each leading non-empty string, in registry order, one per string |
| `Configuration.AllNonEmptyLeading` | Config.cs:88-91 | when no drive string is empty, the drive loop runs over all of them without throwing |
| `Configuration.OpenKey` | Config.cs:72-76 | the key that is read: the 64-bit view's, else the 32-bit view's (`OpenKeyPrefers64`) |
| `Configuration.OverlayScalars` | Config.cs:80-85 | the six scalar reads in source order, stopping at the first cast that throws with the earlier assignments kept (`WellTypedScalarsApplied`, `BadValueAbortsRest`) |
| `Configuration.OverlayDrives` | Config.cs:66-91 | the drive read into a local that starts null: InvalidCast for a wrong type, NullReference when absent, IndexOutOfRange at an empty string (`MissingDrivesKeepsScalars`, `ConfiguredDrives`) |
| `Configuration.Overlay` | Config.cs:78-95 | the whole `try` body with an open key: the scalars, then the drives unless a scalar read threw (`OverlayExtendsDrives`) |
| `Configuration.Resolve` | Config.cs:38-57 | the whole constructor as a value: defaults, registry overlay, fallback to `H`; the `Config` constructor is proved equal to it |
| `Configuration.OpenKeyPrefers64` | Config.cs:68-76 | the 32-bit view is read only when the 64-bit view has no key; if the 64-bit key exists the 32-bit view has no effect |
| `Configuration.WithFallback` | Config.cs:51-56 | after the fallback the drive list is non-empty, and a non-empty list is left as it was |
| `Configuration.ResolveWithoutKey` | Config.cs:38-57 | with no key in either view the result is initial interval 5000, check interval 300000, warnPercent 10, warnBelow 104857600, no message, obsess false, drives `['H']`, and no error |
| `Configuration.ResolveDrivesNonEmpty` | Config.cs:51-56 | the resolved drive list is never empty, and it is exactly `['H']` when the registry added no drive |
| `Configuration.OverlayExtendsDrives` | Config.cs:87-91 | the registry only appends drives to the list it started with |
| `Configuration.WellTypedScalarsApplied` | Config.cs:80-85 | with well-typed scalars, every present field replaces its default and every absent one keeps it; obsess is `stored > 0`, and any stored message is used, even an empty one |
| `Configuration.WellTypedScalarsRead` | Config.cs:80-85 | well-typed scalars are read without an exception and leave the drive list alone |
| `Configuration.OverlayDrivesKeepsScalars` | Config.cs:87-94 | reading the drive strings changes nothing but the drive list |
| `Configuration.BadValueAbortsRest` | Config.cs:80-97 | for each of the seven reads, the first present value of the wrong registry type (a `Drives` REG_SZ included) raises InvalidCast naming it; every earlier field holds its stored value (its default when absent), that field and every later one keep their defaults, and the drive list falls back to `['H']` |
| `Configuration.ScalarReadsAbort` | Config.cs:80-85 | a scalar of the wrong type ends the scalar reads with InvalidCast naming it, the reads before it applied and the rest left at their defaults |
| `Configuration.MissingDrivesKeepsScalars` | Config.cs:80-97 | a missing `Drives` value raises NullReference after the scalars were read; they keep their registry values and the drive list is `['H']` |
| `Configuration.ConfiguredDrives` | Config.cs:87-94 | with non-empty drive strings the drives are their first characters in registry order (duplicates kept) without error, and `['H']` for an empty list |
| `Configuration.Config.constructor` | Config.cs:38-57 | the fields equal `Resolve(reg)`, its error (if any) is reported once, the drive list is non-empty, its drives are fresh and distinct, and each starts at 100 percent |
| `Configuration.Config.LoadFromRegistry` | Config.cs:64-103 | the fields become the overlay of the opened key (64-bit view first); the error is appended; the drives are only appended to |
| `Configuration.Config.ApplyKey` | Config.cs:80-95 | the `try` body: fields equal `Overlay`, it fails iff `Overlay` reports an error, and old drives are reset to 100 only when nothing threw |
| `Configuration.Config.ApplyScalars` | Config.cs:80-85 | the six scalar assignments, stopping at the first bad cast |
| `Configuration.Config.AddDrives` | Config.cs:88-91 | appends one fresh drive per leading non-empty string, with its first character as letter, and fails with IndexOutOfRange iff an empty string occurs |
| `Configuration.Config.ResetPercentFree` | Config.cs:92-94 | every drive of the list holds 100 percent afterwards |
| `Configuration.Config.LoadFromFile` | Config.cs:59-62 | `loadFromFile` is empty and changes nothing (the method has no `modifies`) |
| `Configuration.Config.Drives` | Config.cs:160-163 | the accessor returns the drive list the constructor built |
| `Configuration.Config.InitialInterval` | Config.cs:165-168 | the accessor returns the resolved initial interval |
| `Configuration.Config.CheckInterval` | Config.cs:170-173 | the accessor returns the resolved check interval |
| `Configuration.Config.WarnPercent` | Config.cs:175-178 | the accessor returns the resolved percent threshold |
| `Configuration.Config.WarnBelow` | Config.cs:180-183 | the accessor returns the resolved byte threshold |
| `Configuration.Config.WarnMessage` | Config.cs:185-188 | the accessor returns the resolved message, `None` for null |
| `Configuration.Config.Obsess` | Config.cs:190-193 | the accessor returns the resolved obsess flag |
| `Checking.VolumeLetter` | DiskChecker.cs:64 | a volume's letter is the first character of its name |
| `Checking.Sample` | DiskChecker.cs:63 | the tick's percentage for a volume is `PercentOf(free, total)` (see `Base.PercentOf`) |
| `Checking.AlertLine` | DiskChecker.cs:71 | the alert line: "Drive ", the volume name, " has only ", the formatted percentage, "% free space." and a newline |
| `Checking.Concat` | DiskChecker.cs:71 | the message the `message +=` statements build up from the alert lines, in order |
| `Checking.Alerts` | DiskChecker.cs:68 | the three-way condition: below warnPercent, and falling or obsess, and free bytes below warnBelow (`RepeatedSampleIsSilent`, `ObsessIgnoresTrend`, `HysteresisExamples`) |
| `Checking.Step` | DiskChecker.cs:61-74 | one iteration of the `foreach` over the volumes; characterised by `StepCases` |
| `Checking.Run` | DiskChecker.cs:59-76 | the whole `foreach` as a fold over the volumes in order; `CheckVolumes` is proved equal to it |
| `Checking.FindLetter` | DiskChecker.cs:65-67 | `None` iff no configured drive has the letter; otherwise the first position holding it |
| `Checking.FindDrive` | DiskChecker.cs:65-67 | the scan finds the same drive as `FindLetter` on the list's letters |
| `Checking.Record` | DiskChecker.cs:73 | setting one drive's percentage changes that drive only |
| `Checking.RaiseInterval` | DiskChecker.cs:52-55 | the new interval is the larger of the old interval and the check interval |
| `Checking.RaiseIntervalSettles` | DiskChecker.cs:52-55 | raising again changes nothing, and an interval already at or above the check interval is kept |
| `Checking.Report` | DiskChecker.cs:77-82 | at most one notification, exactly when some line was gathered: the lines in order, then the closing line, then the warning message if set, captioned "Low disk space" |
| `Checking.StepCases` | DiskChecker.cs:61-74 | a not-ready or unconfigured volume changes nothing; otherwise the first drive with its letter takes the new sample whether or not it alerts, and a line is added iff the three-way condition holds |
| `Checking.RunKeepsUnmatched` | DiskChecker.cs:59-76 | a drive that no ready volume of the tick matches keeps its percentage |
| `Checking.RunLinesBounded` | DiskChecker.cs:68-71 | a tick adds at most one line per volume, after the existing ones |
| `Checking.RepeatedSampleIsSilent` | DiskChecker.cs:68 | with obsess off, a sample equal to the drive's last one never alerts |
| `Checking.ObsessIgnoresTrend` | DiskChecker.cs:68 | with obsess on, a volume alerts iff its percentage is below warnPercent and its free bytes below warnBelow |
| `Checking.RunSettles` | DiskChecker.cs:59-76 | after a tick over volumes with distinct letters, every matched drive holds its volume's sample |
| `Checking.SettledRunIsSilent` | DiskChecker.cs:68-73 | with obsess off, a tick over samples the drives already hold adds no line and changes no drive |
| `Checking.SecondTickIsSilent` | DiskChecker.cs:59-76 | with obsess off and distinct letters, repeating a tick's samples raises no alert and leaves every drive unchanged |
| `Checking.SharedLetterReAlerts` | DiskChecker.cs:64-73 | with two ready volumes `C:\` (40 percent) and `C:\x` (30 percent) on drive `C`, threshold 50, obsess off, the repeated tick alerts again for `C:\x`: distinct letters are needed for `SecondTickIsSilent` |
| `Checking.HysteresisExamples` | DiskChecker.cs:68 | at a 50 percent threshold, samples 40, 30, 35 alert, alert, stay silent with obsess off; with obsess on 40, 45, 40 all alert and 55 does not |
| `Checking.DiskChecker.constructor` | DiskChecker.cs:38-48 | the configuration is `Resolve(reg)`, and before the first tick the interval is the initial interval |
| `Checking.DiskChecker.CheckDriveSpace` | DiskChecker.cs:50-86 | the interval is raised to at least the check interval and never lowered; drive percentages become `Run`'s; `Report`'s at most one notification is appended; `warning` is false and `message` empty at the end |
| `Checking.DiskChecker.CheckVolumes` | DiskChecker.cs:59-76 | the `foreach` leaves the drives as `Run` does and the message holding `Run`'s lines in order |
| `Checking.DiskChecker.CheckVolume` | DiskChecker.cs:61-74 | one iteration is one `Step` |
| `Checking.DiskChecker.Notify` | DiskChecker.cs:77-85 | shows the message once when some drive alerted, then clears `warning` and `message` |
| `Checking.RepeatedTick` | DiskChecker.cs:50-86 | two ticks over the same volumes with obsess off and distinct letters have the effect of the first alone: one `Report` appended, drives as after one `Run`, the interval raised once |

## Left out

- `Configuration.ResolveWithoutKey`: when neither view has the key, the program's `finally` block calls `key.Close()` on null, and the exception escapes the `Config` constructor. The model treats closing as a no-op, so this lemma and `Configuration.Config.constructor` describe the program as if that call were guarded.
- Opening and closing registry keys, `DriveInfo.GetDrives` and `IsReady` are not modelled as calls. Their results are inputs: a `Registry` value, and a sequence of `Volume(name, isReady, totalSize, totalFreeSpace)` records.
- `MessageBox.Show` is not called. A configuration error is appended to `Config.errors` as the kind of exception, not its `ToString()` text. A low-space notification is appended to `DiskChecker.shown`.
- The timer is not modelled. This covers its scheduling, the event wiring, `Start` and `Hide`, and the fact that it is static (shared by all instances). `DiskChecker.interval` stands for `timer.Interval`. `Timer.Interval` rejects values below 1, so a configured initial interval of 0 or less makes the program's constructor throw. The model does not capture that.
- The unused `nextCheck` field is not modelled.
- Floating-point rounding is not modelled. Finite percentages are exact reals; only infinity and NaN are kept from IEEE doubles.
- The `{0:F2}` rendering of the percentage is a function parameter (`format`) of `CheckDriveSpace`.
- C# `char` is a UTF-16 code unit, while the model uses Dafny's `char`, a Unicode scalar value. For a drive string or volume name that starts with a character outside the Basic Multilingual Plane, the program's `ToCharArray()[0]` is the high surrogate, while the model takes the whole code point; the letter, and so `CharHash`, then differ from the program's. For characters of the Basic Multilingual Plane they agree.
- Volume names are assumed to be non-empty (`VolumeName`), as `DriveInfo.Name` always is. An empty name would throw uncaught inside the tick.
- `List.Exists` followed by `List.Find` is modelled as one scan (`FindDrive`), since both test the same predicate.
- NotificationIcon.cs is not part of this model: the tray icon, menu, About box, message loop and single-instance mutex.
