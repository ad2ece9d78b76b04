/** Configuration resolution: hard-coded defaults, overlaid by the values
    under the machine-wide registry key `SOFTWARE\Amalgam` (the 64-bit view,
    or the 32-bit view when the 64-bit view has no such key), then the
    fallback that monitors drive `H` when no drive was configured. */
module Configuration {
  import opened Base
  import opened Drives

  /** A registry value as `RegistryKey.GetValue` returns it, tagged with its
      registry type: REG_DWORD is an `int`, REG_SZ and REG_EXPAND_SZ a
      `string`, REG_MULTI_SZ a `string[]`, REG_QWORD a `long`, REG_BINARY
      a `byte[]`. */
  datatype RegValue =
    | DWord(n: Int32)
    | QWord(l: int)
    | Str(s: string)
    | MultiStr(ss: seq<string>)
    | Binary(bytes: seq<bv8>)

  /** The values stored under one opened key, keyed by the exact names the
      program asks for (Windows matches value names without regard to
      case, so a value stored as `drives` is found as `Drives`). A name
      that is not in the map is absent (`GetValue` returns null). */
  type RegKey = map<string, RegValue>

  /** `SOFTWARE\Amalgam` as seen in the 64-bit and in the 32-bit registry
      view of HKEY_LOCAL_MACHINE; `None` when the key does not exist. */
  datatype Registry = Registry(view64: Option<RegKey>, view32: Option<RegKey>)

  /** What the `catch` block is handed. */
  datatype ReadError =
    | InvalidCast(name: string)   // a present value of the wrong registry type
    | NullReference               // `foreach` over the null drive array
    | IndexOutOfRange             // `ToCharArray()[0]` of an empty drive string

  /** The effective configuration, with the drive list reduced to its letters. */
  datatype Settings = Settings(
    initialInterval: Int32,
    checkInterval: Int32,
    warnPercent: Int32,
    warnBelow: Int32,
    warnMessage: Option<string>,
    obsess: bool,
    drives: seq<char>)

  /** Settings together with the exception, if any, that cut loading short. */
  datatype Loaded = Loaded(settings: Settings, error: Option<ReadError>)

  /** The letter monitored when no drive is configured (the home drive). */
  const FallbackDrive: char := 'H'

  /** The constructor's defaults, before any overlay. */
  function Defaults(): Settings
  {
    Settings(5000, 300000, 10, 100 * 1024 * 1024, None, false, [])
  }

  // ---------------------------------------------------------------------
  // The four `readRegistryKey` overloads: keep the current value when the
  // named value is absent, otherwise cast the stored value (which throws
  // when it has another registry type).

  function ReadInt(current: Int32, name: string, key: RegKey): Result<Int32, ReadError>
  {
    if name !in key then Success(current)
    else if key[name].DWord? then Success(key[name].n)
    else Failure(InvalidCast(name))
  }

  /** The `bool` overload reads an `int` and maps it by `> 0`. */
  function ReadBool(current: bool, name: string, key: RegKey): Result<bool, ReadError>
  {
    if name !in key then Success(current)
    else if key[name].DWord? then Success(key[name].n > 0)
    else Failure(InvalidCast(name))
  }

  /** The `string` overload; `None` stands for a null string. */
  function ReadString(current: Option<string>, name: string, key: RegKey): Result<Option<string>, ReadError>
  {
    if name !in key then Success(current)
    else if key[name].Str? then Success(Some(key[name].s))
    else Failure(InvalidCast(name))
  }

  /** The `string[]` overload; `None` stands for a null array. */
  function ReadStrings(current: Option<seq<string>>, name: string, key: RegKey): Result<Option<seq<string>>, ReadError>
  {
    if name !in key then Success(current)
    else if key[name].MultiStr? then Success(Some(key[name].ss))
    else Failure(InvalidCast(name))
  }

  /** An absent value leaves the current value in place; a present one
      decides the result on its own, whatever the current value was. */
  lemma ReadPrecedence(name: string, key: RegKey)
    ensures name !in key ==>
      && (forall n: Int32 :: ReadInt(n, name, key) == Success(n))
      && (forall b :: ReadBool(b, name, key) == Success(b))
      && (forall s :: ReadString(s, name, key) == Success(s))
      && (forall ss :: ReadStrings(ss, name, key) == Success(ss))
    ensures name in key ==>
      && (forall n: Int32, m: Int32 :: ReadInt(n, name, key) == ReadInt(m, name, key))
      && (forall b, c :: ReadBool(b, name, key) == ReadBool(c, name, key))
      && (forall s, t :: ReadString(s, name, key) == ReadString(t, name, key))
      && (forall ss, tt :: ReadStrings(ss, name, key) == ReadStrings(tt, name, key))
  {
  }

  /** The `bool` overload is true exactly for a stored `int` above zero. */
  lemma ReadBoolIsPositive(current: bool, name: string, key: RegKey, n: Int32)
    requires name in key && key[name] == DWord(n)
    ensures ReadBool(current, name, key) == Success(n > 0)
  {
  }

  /** A stored string replaces the current one even when it is empty. */
  lemma ReadStringKeepsEmpty(current: Option<string>, name: string, key: RegKey)
    requires name in key && key[name] == Str("")
    ensures ReadString(current, name, key) == Success(Some(""))
  {
  }

  // ---------------------------------------------------------------------
  // The drive list.

  /** The letters the `foreach` over the registry's drive strings adds, in
      order: the first character of each string, up to the first empty
      string (whose `ToCharArray()[0]` throws). */
  function LettersUntilEmpty(names: seq<string>): seq<char>
  {
    if |names| == 0 || |names[0]| == 0 then []
    else [names[0][0]] + LettersUntilEmpty(names[1..])
  }

  /** Number of leading non-empty strings. */
  function LeadingNonEmpty(names: seq<string>): (k: nat)
    ensures k <= |names|
    ensures forall i :: 0 <= i < k ==> |names[i]| > 0
    ensures k < |names| ==> |names[k]| == 0
  {
    if |names| == 0 || |names[0]| == 0 then 0
    else 1 + LeadingNonEmpty(names[1..])
  }

  /** When no drive string is empty, the loop runs to the end. */
  lemma {:induction false} AllNonEmptyLeading(names: seq<string>)
    requires forall i :: 0 <= i < |names| ==> |names[i]| > 0
    ensures LeadingNonEmpty(names) == |names|
  {
    if |names| > 0 {
      AllNonEmptyLeading(names[1..]);
    }
  }

  /** The letters added are the first characters of the leading non-empty
      strings, in registry order, one per string. */
  lemma {:induction false} LettersUntilEmptyOrder(names: seq<string>)
    ensures |LettersUntilEmpty(names)| == LeadingNonEmpty(names)
    ensures forall i :: 0 <= i < LeadingNonEmpty(names) ==>
      LettersUntilEmpty(names)[i] == names[i][0]
  {
    if |names| > 0 && |names[0]| > 0 {
      LettersUntilEmptyOrder(names[1..]);
    }
  }

  // ---------------------------------------------------------------------
  // The overlay and the whole resolution.

  /** The six scalar reads of the `try` body, in order. The first one that
      throws abandons the rest; what was assigned before it stays. */
  function OverlayScalars(s: Settings, key: RegKey): Loaded
  {
    match ReadInt(s.initialInterval, "initialInterval", key)
    case Failure(e) => Loaded(s, Some(e))
    case Success(initial) =>
      var s1 := s.(initialInterval := initial);
      match ReadInt(s1.checkInterval, "checkInterval", key)
      case Failure(e) => Loaded(s1, Some(e))
      case Success(check) =>
        var s2 := s1.(checkInterval := check);
        match ReadInt(s2.warnPercent, "warnPercent", key)
        case Failure(e) => Loaded(s2, Some(e))
        case Success(percent) =>
          var s3 := s2.(warnPercent := percent);
          match ReadInt(s3.warnBelow, "warnBelow", key)
          case Failure(e) => Loaded(s3, Some(e))
          case Success(below) =>
            var s4 := s3.(warnBelow := below);
            match ReadString(s4.warnMessage, "warnMessage", key)
            case Failure(e) => Loaded(s4, Some(e))
            case Success(msg) =>
              var s5 := s4.(warnMessage := msg);
              match ReadBool(s5.obsess, "obsess", key)
              case Failure(e) => Loaded(s5, Some(e))
              case Success(obsess) => Loaded(s5.(obsess := obsess), None)
  }

  /** The rest of the `try` body: read the drive strings into a local that
      starts out null, and append one drive per string. */
  function OverlayDrives(s: Settings, key: RegKey): Loaded
  {
    match ReadStrings(None, "Drives", key)
    case Failure(e) => Loaded(s, Some(e))
    case Success(None) => Loaded(s, Some(NullReference))
    case Success(Some(names)) =>
      var s1 := s.(drives := s.drives + LettersUntilEmpty(names));
      if LeadingNonEmpty(names) < |names| then Loaded(s1, Some(IndexOutOfRange))
      else Loaded(s1, None)
  }

  /** The `try` body of `loadFromRegistry` once a key is open. */
  function Overlay(s: Settings, key: RegKey): Loaded
  {
    var scalars := OverlayScalars(s, key);
    if scalars.error.Some? then scalars else OverlayDrives(scalars.settings, key)
  }

  /** The key that is read: the 64-bit view's, else the 32-bit view's. */
  function OpenKey(reg: Registry): Option<RegKey>
  {
    if reg.view64.Some? then reg.view64 else reg.view32
  }

  /** The fallback after loading: an empty drive list becomes `['H']`. */
  function WithFallback(s: Settings): (r: Settings)
    ensures |r.drives| > 0
    ensures |s.drives| > 0 ==> r == s
    ensures |s.drives| == 0 ==> r == s.(drives := [FallbackDrive])
  {
    if |s.drives| == 0 then s.(drives := [FallbackDrive]) else s
  }

  /** The whole constructor: defaults, the (empty) file overlay, the
      registry overlay, the fallback. */
  function Resolve(reg: Registry): Loaded
  {
    var loaded :=
      match OpenKey(reg)
      case None => Loaded(Defaults(), None)
      case Some(key) => Overlay(Defaults(), key);
    Loaded(WithFallback(loaded.settings), loaded.error)
  }

  /** The 32-bit view is consulted only when the 64-bit view has no key. */
  lemma OpenKeyPrefers64(reg: Registry)
    ensures reg.view64.Some? ==> OpenKey(reg) == reg.view64
    ensures reg.view64.None? ==> OpenKey(reg) == reg.view32
    ensures reg.view64.Some? ==> Resolve(reg) == Resolve(reg.(view32 := None))
  {
  }

  /** Without a key the result is the defaults with drive `H`, and no error. */
  lemma ResolveWithoutKey(reg: Registry)
    requires reg.view64.None? && reg.view32.None?
    ensures Resolve(reg).settings == Settings(5000, 300000, 10, 104857600, None, false, ['H'])
    ensures Resolve(reg).error.None?
  {
  }

  /** The overlay only ever appends to the drive list. */
  lemma OverlayExtendsDrives(s: Settings, key: RegKey)
    ensures |Overlay(s, key).settings.drives| >= |s.drives|
    ensures Overlay(s, key).settings.drives[..|s.drives|] == s.drives
  {
  }

  /** The resolved drive list is never empty, and it is exactly `['H']`
      when the registry contributed no drive. */
  lemma ResolveDrivesNonEmpty(reg: Registry)
    ensures |Resolve(reg).settings.drives| > 0
    ensures (OpenKey(reg).None? || |Overlay(Defaults(), OpenKey(reg).value).settings.drives| == 0)
      ==> Resolve(reg).settings.drives == [FallbackDrive]
  {
  }

  /** Scalar values the key stores with the right type, read in full. */
  ghost predicate ScalarsWellTyped(key: RegKey)
  {
    && ("initialInterval" in key ==> key["initialInterval"].DWord?)
    && ("checkInterval" in key ==> key["checkInterval"].DWord?)
    && ("warnPercent" in key ==> key["warnPercent"].DWord?)
    && ("warnBelow" in key ==> key["warnBelow"].DWord?)
    && ("warnMessage" in key ==> key["warnMessage"].Str?)
    && ("obsess" in key ==> key["obsess"].DWord?)
  }

  /** With well-typed scalars every field present in the key replaces the
      default and every absent one keeps it; `obsess` is the stored `int`
      `> 0`, and any stored string, the empty one included, becomes the
      warning message. This holds whatever happens to the drive list. */
  lemma WellTypedScalarsApplied(key: RegKey)
    requires ScalarsWellTyped(key)
    ensures var r := Overlay(Defaults(), key).settings;
      && r.initialInterval == (if "initialInterval" in key then key["initialInterval"].n else 5000)
      && r.checkInterval == (if "checkInterval" in key then key["checkInterval"].n else 300000)
      && r.warnPercent == (if "warnPercent" in key then key["warnPercent"].n else 10)
      && r.warnBelow == (if "warnBelow" in key then key["warnBelow"].n else 104857600)
      && r.warnMessage == (if "warnMessage" in key then Some(key["warnMessage"].s) else None)
      && r.obsess == ("obsess" in key && key["obsess"].n > 0)
  {
    WellTypedScalarsRead(Defaults(), key);
    OverlayDrivesKeepsScalars(OverlayScalars(Defaults(), key).settings, key);
  }

  /** Well-typed scalars are read without an exception, and reading them
      leaves the drive list alone. */
  lemma WellTypedScalarsRead(s: Settings, key: RegKey)
    requires ScalarsWellTyped(key)
    ensures OverlayScalars(s, key).error.None?
    ensures OverlayScalars(s, key).settings.drives == s.drives
  {
  }

  /** Reading the drive strings changes only the drive list. */
  lemma OverlayDrivesKeepsScalars(s: Settings, key: RegKey)
    ensures OverlayDrives(s, key).settings == s.(drives := OverlayDrives(s, key).settings.drives)
  {
  }

  /** The values the `try` body reads, in the order it reads them. */
  const OverlayNames: seq<string> :=
    ["initialInterval", "checkInterval", "warnPercent", "warnBelow", "warnMessage", "obsess", "Drives"]

  /** Whether the cast at position `i` of the `try` body accepts `v`: the
      `warnMessage` read wants a REG_SZ, the `Drives` read a REG_MULTI_SZ,
      and the other five an `int` (REG_DWORD). */
  predicate CastsAt(i: nat, v: RegValue)
  {
    if i == 4 then v.Str? else if i == 6 then v.MultiStr? else v.DWord?
  }

  /** Defaults with the values of the first `i` reads of the `try` body
      applied, the present ones being assumed well typed. */
  ghost function ReadUpTo(key: RegKey, i: nat): Settings
    requires i > 0 && "initialInterval" in key ==> key["initialInterval"].DWord?
    requires i > 1 && "checkInterval" in key ==> key["checkInterval"].DWord?
    requires i > 2 && "warnPercent" in key ==> key["warnPercent"].DWord?
    requires i > 3 && "warnBelow" in key ==> key["warnBelow"].DWord?
    requires i > 4 && "warnMessage" in key ==> key["warnMessage"].Str?
    requires i > 5 && "obsess" in key ==> key["obsess"].DWord?
  {
    Settings(
      if i > 0 && "initialInterval" in key then key["initialInterval"].n else 5000,
      if i > 1 && "checkInterval" in key then key["checkInterval"].n else 300000,
      if i > 2 && "warnPercent" in key then key["warnPercent"].n else 10,
      if i > 3 && "warnBelow" in key then key["warnBelow"].n else 104857600,
      if i > 4 && "warnMessage" in key then Some(key["warnMessage"].s) else None,
      i > 5 && "obsess" in key && key["obsess"].n > 0,
      [])
  }

  /** A scalar of the wrong type ends the scalar reads with InvalidCast,
      the reads before it applied. */
  lemma ScalarReadsAbort(key: RegKey, i: nat)
    requires i < 6
    requires i > 0 && "initialInterval" in key ==> key["initialInterval"].DWord?
    requires i > 1 && "checkInterval" in key ==> key["checkInterval"].DWord?
    requires i > 2 && "warnPercent" in key ==> key["warnPercent"].DWord?
    requires i > 3 && "warnBelow" in key ==> key["warnBelow"].DWord?
    requires i > 4 && "warnMessage" in key ==> key["warnMessage"].Str?
    requires OverlayNames[i] in key && !CastsAt(i, key[OverlayNames[i]])
    ensures OverlayScalars(Defaults(), key) == Loaded(ReadUpTo(key, i), Some(InvalidCast(OverlayNames[i])))
  {
    if i == 0 {
      assert OverlayNames[0] == "initialInterval";
    } else if i == 1 {
      assert OverlayNames[1] == "checkInterval";
    } else if i == 2 {
      assert OverlayNames[2] == "warnPercent";
    } else if i == 3 {
      assert OverlayNames[3] == "warnBelow";
    } else if i == 4 {
      assert OverlayNames[4] == "warnMessage";
    } else {
      assert OverlayNames[5] == "obsess";
    }
  }

  /** The first present value of the wrong registry type stops loading
      there with InvalidCast: every field read before it holds its stored
      value (or its default when absent), that field and every later one
      keep their defaults, no drive is read, and the fallback applies. */
  lemma BadValueAbortsRest(reg: Registry, key: RegKey, i: nat)
    requires OpenKey(reg) == Some(key)
    requires i < |OverlayNames|
    requires i > 0 && "initialInterval" in key ==> key["initialInterval"].DWord?
    requires i > 1 && "checkInterval" in key ==> key["checkInterval"].DWord?
    requires i > 2 && "warnPercent" in key ==> key["warnPercent"].DWord?
    requires i > 3 && "warnBelow" in key ==> key["warnBelow"].DWord?
    requires i > 4 && "warnMessage" in key ==> key["warnMessage"].Str?
    requires i > 5 && "obsess" in key ==> key["obsess"].DWord?
    requires OverlayNames[i] in key && !CastsAt(i, key[OverlayNames[i]])
    ensures Resolve(reg).error == Some(InvalidCast(OverlayNames[i]))
    ensures var r := Resolve(reg).settings;
      && r.initialInterval == (if i > 0 && "initialInterval" in key then key["initialInterval"].n else 5000)
      && r.checkInterval == (if i > 1 && "checkInterval" in key then key["checkInterval"].n else 300000)
      && r.warnPercent == (if i > 2 && "warnPercent" in key then key["warnPercent"].n else 10)
      && r.warnBelow == (if i > 3 && "warnBelow" in key then key["warnBelow"].n else 104857600)
      && r.warnMessage == (if i > 4 && "warnMessage" in key then Some(key["warnMessage"].s) else None)
      && r.obsess == (i > 5 && "obsess" in key && key["obsess"].n > 0)
      && r.drives == [FallbackDrive]
  {
    if i < 6 {
      ScalarReadsAbort(key, i);
    } else {
      assert OverlayNames[6] == "Drives";
      WellTypedScalarsRead(Defaults(), key);
      OverlayDrivesKeepsScalars(OverlayScalars(Defaults(), key).settings, key);
      assert OverlayScalars(Defaults(), key).settings == ReadUpTo(key, 6) by {
        WellTypedScalarsApplied(key);
      }
    }
  }

  /** A missing `Drives` value makes the `foreach` throw after every scalar
      was assigned: the scalars keep their registry values, an error is
      reported and the fallback drive `H` is used. */
  lemma MissingDrivesKeepsScalars(reg: Registry, key: RegKey)
    requires OpenKey(reg) == Some(key)
    requires ScalarsWellTyped(key)
    requires "Drives" !in key
    ensures Resolve(reg).error == Some(NullReference)
    ensures Resolve(reg).settings == Overlay(Defaults(), key).settings.(drives := [FallbackDrive])
  {
  }

  /** With a key and a `Drives` list of non-empty strings, the configured
      drives are the first characters of those strings in registry order
      (duplicates kept); the fallback applies only to an empty list. */
  lemma {:induction false} ConfiguredDrives(reg: Registry, key: RegKey, names: seq<string>)
    requires OpenKey(reg) == Some(key)
    requires ScalarsWellTyped(key)
    requires "Drives" in key && key["Drives"] == MultiStr(names)
    requires forall i :: 0 <= i < |names| ==> |names[i]| > 0
    ensures Resolve(reg).error.None?
    ensures |names| > 0 ==> |Resolve(reg).settings.drives| == |names|
    ensures |names| > 0 ==> forall i :: 0 <= i < |names| ==> Resolve(reg).settings.drives[i] == names[i][0]
    ensures |names| == 0 ==> Resolve(reg).settings.drives == [FallbackDrive]
  {
    WellTypedScalarsRead(Defaults(), key);
    LettersUntilEmptyOrder(names);
    AllNonEmptyLeading(names);
  }

  // ---------------------------------------------------------------------
  // The class.

  /** `Config`: private fields assigned by the constructor and never again. */
  class Config {
    var driveList: seq<Drive>
    var initialIntervalValue: Int32
    var checkIntervalValue: Int32
    var warnPercentValue: Int32
    var warnBelowValue: Int32
    var warnMessageValue: Option<string>
    var obsessValue: bool
    /** The messages the `catch` in `loadFromRegistry` shows. */
    var errors: seq<ReadError>

    /** The drive objects are distinct, so updating one updates no other. */
    ghost predicate Valid()
      reads this
    {
      forall i, j :: 0 <= i < j < |driveList| ==> driveList[i] != driveList[j]
    }

    /** The fields, with the drive objects reduced to their letters. */
    function Current(): Settings
      reads this
    {
      Settings(initialIntervalValue, checkIntervalValue, warnPercentValue,
               warnBelowValue, warnMessageValue, obsessValue, LettersOf(driveList))
    }

    constructor (reg: Registry)
      ensures Valid()
      ensures Current() == Resolve(reg).settings
      ensures errors == (if Resolve(reg).error.Some? then [Resolve(reg).error.value] else [])
      ensures |driveList| > 0
      ensures forall d :: d in driveList ==> fresh(d) && d.percentFree == InitialPercentFree
    {
      driveList := [];
      initialIntervalValue := 5000;
      checkIntervalValue := 300000;
      warnPercentValue := 10;
      warnBelowValue := 100 * 1024 * 1024;
      warnMessageValue := None;
      obsessValue := false;
      errors := [];
      new;
      LoadFromFile();
      LoadFromRegistry(reg);
      if |driveList| == 0 {
        var home := new Drive(FallbackDrive);
        driveList := driveList + [home];
      }
    }

    /** `loadFromFile`: not implemented in the program; changes nothing. */
    method LoadFromFile()
    {
    }

    /** `loadFromRegistry`: open the key (64-bit view first), run the `try`
        body, and report what it throws. */
    method LoadFromRegistry(reg: Registry)
      requires Valid()
      modifies this, driveList
      ensures Valid()
      ensures var loaded := if OpenKey(reg).Some? then Overlay(old(Current()), OpenKey(reg).value)
                            else Loaded(old(Current()), None);
        && Current() == loaded.settings
        && errors == old(errors) + (if loaded.error.Some? then [loaded.error.value] else [])
      ensures |driveList| >= |old(driveList)| && driveList[..|old(driveList)|] == old(driveList)
      ensures forall d :: d in driveList && d !in old(driveList) ==> fresh(d) && d.percentFree == InitialPercentFree
      ensures forall d :: d in old(driveList) ==>
        d.percentFree == (if OpenKey(reg).Some? && Overlay(old(Current()), OpenKey(reg).value).error.None?
                          then InitialPercentFree else old(d.percentFree))
    {
      var key := reg.view64;
      if key.None? {
        key := reg.view32;
      }
      if key.Some? {
        var outcome := ApplyKey(key.value);
        if outcome.Failure? {
          errors := errors + [outcome.error];
        }
      }
    }

    /** The `try` body with an open key. */
    method ApplyKey(key: RegKey) returns (outcome: Result<(), ReadError>)
      requires Valid()
      modifies this, driveList
      ensures Valid()
      ensures Current() == Overlay(old(Current()), key).settings
      ensures outcome.Failure? <==> Overlay(old(Current()), key).error.Some?
      ensures outcome.Failure? ==> outcome.error == Overlay(old(Current()), key).error.value
      ensures errors == old(errors)
      ensures |driveList| >= |old(driveList)| && driveList[..|old(driveList)|] == old(driveList)
      ensures forall d :: d in driveList && d !in old(driveList) ==> fresh(d) && d.percentFree == InitialPercentFree
      ensures forall d :: d in old(driveList) ==>
        d.percentFree == (if outcome.Success? then InitialPercentFree else old(d.percentFree))
    {
      outcome := ApplyScalars(key);
      if outcome.Failure? {
        return;
      }
      var names :- ReadStrings(None, "Drives", key);
      if names.None? {
        return Failure(NullReference);
      }
      outcome := AddDrives(names.value);
      if outcome.Failure? {
        return;
      }
      forall i | 0 <= i < |driveList|
        ensures driveList[i] in old(driveList) || fresh(driveList[i])
      {
        assert driveList[i] in driveList;
      }
      ResetPercentFree();
    }

    /** The six scalar assignments of the `try` body; a failed cast ends
        them early (`:-`), keeping the fields assigned so far. */
    method ApplyScalars(key: RegKey) returns (outcome: Result<(), ReadError>)
      modifies this
      ensures Current() == OverlayScalars(old(Current()), key).settings
      ensures outcome.Failure? <==> OverlayScalars(old(Current()), key).error.Some?
      ensures outcome.Failure? ==> outcome.error == OverlayScalars(old(Current()), key).error.value
      ensures driveList == old(driveList) && errors == old(errors)
    {
      initialIntervalValue :- ReadInt(initialIntervalValue, "initialInterval", key);
      checkIntervalValue :- ReadInt(checkIntervalValue, "checkInterval", key);
      warnPercentValue :- ReadInt(warnPercentValue, "warnPercent", key);
      warnBelowValue :- ReadInt(warnBelowValue, "warnBelow", key);
      warnMessageValue :- ReadString(warnMessageValue, "warnMessage", key);
      obsessValue :- ReadBool(obsessValue, "obsess", key);
      return Success(());
    }

    /** The first `foreach`: one new drive per string, from its first
        character, appended in order; an empty string throws. */
    method AddDrives(names: seq<string>) returns (outcome: Result<(), ReadError>)
      requires Valid()
      modifies this
      ensures Valid()
      ensures |driveList| >= |old(driveList)| && driveList[..|old(driveList)|] == old(driveList)
      ensures LettersOf(driveList) == old(LettersOf(driveList)) + LettersUntilEmpty(names)
      ensures outcome.Failure? <==> LeadingNonEmpty(names) < |names|
      ensures outcome.Failure? ==> outcome.error == IndexOutOfRange
      ensures forall d :: d in driveList && d !in old(driveList) ==> fresh(d) && d.percentFree == InitialPercentFree
      ensures initialIntervalValue == old(initialIntervalValue) && checkIntervalValue == old(checkIntervalValue)
      ensures warnPercentValue == old(warnPercentValue) && warnBelowValue == old(warnBelowValue)
      ensures warnMessageValue == old(warnMessageValue) && obsessValue == old(obsessValue)
      ensures errors == old(errors)
    {
      LettersUntilEmptyOrder(names);
      var i := 0;
      while i < |names|
        invariant 0 <= i <= |names|
        invariant forall j :: 0 <= j < i ==> |names[j]| > 0
        invariant |driveList| == |old(driveList)| + i
        invariant driveList[..|old(driveList)|] == old(driveList)
        invariant forall j :: 0 <= j < i ==> driveList[|old(driveList)| + j].letter == names[j][0]
        invariant forall d :: d in driveList && d !in old(driveList) ==> fresh(d) && d.percentFree == InitialPercentFree
        invariant Valid()
        invariant initialIntervalValue == old(initialIntervalValue) && checkIntervalValue == old(checkIntervalValue)
        invariant warnPercentValue == old(warnPercentValue) && warnBelowValue == old(warnBelowValue)
        invariant warnMessageValue == old(warnMessageValue) && obsessValue == old(obsessValue)
        invariant errors == old(errors)
      {
        if |names[i]| == 0 {
          assert LeadingNonEmpty(names) == i;
          return Failure(IndexOutOfRange);
        }
        var drive := new Drive(names[i][0]);
        driveList := driveList + [drive];
        i := i + 1;
      }
      assert LeadingNonEmpty(names) == |names|;
      return Success(());
    }

    /** The second `foreach`: every drive of the list back to 100 percent. */
    method ResetPercentFree()
      modifies driveList
      ensures forall d :: d in driveList ==> d.percentFree == InitialPercentFree
    {
      var i := 0;
      while i < |driveList|
        invariant 0 <= i <= |driveList|
        invariant forall j :: 0 <= j < i ==> driveList[j].percentFree == InitialPercentFree
      {
        driveList[i].SetPercentFree(InitialPercentFree);
        i := i + 1;
      }
    }

    function Drives(): seq<Drive>
      reads this
    {
      driveList
    }

    function InitialInterval(): Int32
      reads this
    {
      initialIntervalValue
    }

    function CheckInterval(): Int32
      reads this
    {
      checkIntervalValue
    }

    function WarnPercent(): Int32
      reads this
    {
      warnPercentValue
    }

    function WarnBelow(): Int32
      reads this
    {
      warnBelowValue
    }

    function WarnMessage(): Option<string>
      reads this
    {
      warnMessageValue
    }

    function Obsess(): bool
      reads this
    {
      obsessValue
    }
  }

  /** The letters of a drive list, in order. */
  function LettersOf(ds: seq<Drive>): seq<char>
  {
    seq(|ds|, i requires 0 <= i < |ds| => ds[i].letter)
  }
}
