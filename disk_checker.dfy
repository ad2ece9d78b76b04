/** One monitoring tick: raise the poll interval to the steady interval,
    walk the volumes the operating system reports, alert on the configured
    ones whose free space is low and falling (or low, in obsess mode),
    record every new sample, and show at most one combined notification. */
module Checking {
  import opened Base
  import opened Drives
  import opened Configuration

  /** `DriveInfo.Name`, such as `C:\`; it is never empty. */
  type VolumeName = s: string | |s| > 0 witness "C:\\"

  /** What `DriveInfo.GetDrives()` reports for one volume. */
  datatype Volume = Volume(name: VolumeName, isReady: bool, totalSize: nat, totalFreeSpace: nat)

  /** `drive.Name.ToCharArray()[0]`. */
  function VolumeLetter(v: Volume): char
  {
    v.name[0]
  }

  /** The tick's `percentFree` for a volume. */
  function Sample(v: Volume): Percent
  {
    PercentOf(v.totalFreeSpace, v.totalSize)
  }

  /** A notification as `MessageBox.Show(text, caption)` displays it. */
  datatype Notification = Notification(text: string, caption: string)

  const Closing: string := "Please delete unnecessary files.\n"
  const Caption: string := "Low disk space"

  /** The per-drive line; `format` is the `{0:F2}` rendering of a double. */
  function AlertLine(name: string, p: Percent, format: Percent -> string): string
  {
    "Drive " + name + " has only " + format(p) + "% free space.\n"
  }

  /** The three-way alert condition for a configured, ready volume whose
      drive last saw `last`. */
  predicate Alerts(s: Settings, sample: Percent, free: nat, last: Percent)
  {
    && BelowInt(sample, s.warnPercent)
    && (Below(sample, last) || s.obsess)
    && free < s.warnBelow
  }

  /** `List.Find(x => x.Letter == c)` over the letters: the first position
      holding `c`, if any. */
  function FindLetter(letters: seq<char>, c: char): (r: Option<nat>)
    ensures r.None? <==> c !in letters
    ensures r.Some? ==> r.value < |letters| && letters[r.value] == c
    ensures r.Some? ==> forall j :: 0 <= j < r.value ==> letters[j] != c
  {
    if |letters| == 0 then None
    else if letters[0] == c then Some(0)
    else match FindLetter(letters[1..], c)
      case None => None
      case Some(k) => Some(k + 1)
  }

  /** The state a tick works on: each configured drive's last sample, in
      drive-list order, and the alert lines gathered so far. */
  datatype TickState = TickState(last: seq<Percent>, lines: seq<string>)

  /** One iteration of the `foreach` over the volumes. */
  function Step(s: Settings, letters: seq<char>, format: Percent -> string, st: TickState, v: Volume): (r: TickState)
    requires |st.last| == |letters|
    ensures |r.last| == |letters|
  {
    if !v.isReady then st
    else match FindLetter(letters, VolumeLetter(v))
      case None => st
      case Some(k) =>
        var p := Sample(v);
        var lines := if Alerts(s, p, v.totalFreeSpace, st.last[k])
                     then st.lines + [AlertLine(v.name, p, format)] else st.lines;
        TickState(st.last[k := p], lines)
  }

  /** The whole `foreach`, volume by volume in enumeration order. */
  function Run(s: Settings, letters: seq<char>, format: Percent -> string, st: TickState, vols: seq<Volume>): (r: TickState)
    requires |st.last| == |letters|
    ensures |r.last| == |letters|
    decreases |vols|
  {
    if |vols| == 0 then st
    else Step(s, letters, format, Run(s, letters, format, st, vols[..|vols| - 1]), vols[|vols| - 1])
  }

  /** The message buffer after appending `lines` one by one. */
  function Concat(lines: seq<string>): string
    decreases |lines|
  {
    if |lines| == 0 then "" else Concat(lines[..|lines| - 1]) + lines[|lines| - 1]
  }

  /** What the end of a tick shows: nothing when no drive alerted, and
      otherwise one notification holding the alert lines, the closing line
      and the configured warning message when there is one. */
  function Report(s: Settings, lines: seq<string>): (r: seq<Notification>)
    ensures |r| <= 1
    ensures |r| == 1 <==> |lines| > 0
    ensures |r| == 1 ==> r[0].caption == Caption
    ensures |r| == 1 ==>
      r[0].text == Concat(lines) + Closing + (if s.warnMessage.Some? then s.warnMessage.value else "")
  {
    if |lines| == 0 then []
    else
      var text := Concat(lines) + Closing;
      var text := if s.warnMessage.Some? then text + s.warnMessage.value else text;
      [Notification(text, Caption)]
  }

  /** The interval rule at the start of a tick: raise to the steady
      interval, never lower. */
  function RaiseInterval(interval: int, check: int): (r: int)
    ensures r >= interval && r >= check
    ensures r == interval || r == check
  {
    if interval < check then check else interval
  }

  /** The drive-state half of the `foreach`: one scan for the letter. */
  method FindDrive(drives: seq<Drive>, letter: char) returns (k: Option<nat>)
    ensures k == FindLetter(LettersOf(drives), letter)
  {
    ghost var letters := LettersOf(drives);
    var i := 0;
    while i < |drives|
      invariant 0 <= i <= |drives|
      invariant forall j :: 0 <= j < i ==> letters[j] != letter
    {
      if drives[i].letter == letter {
        assert letters[i] == letter;
        return Some(i);
      }
      i := i + 1;
    }
    return None;
  }

  /** The percentages the drives of a list hold, in order. */
  function PercentsOf(ds: seq<Drive>): seq<Percent>
    reads ds
  {
    seq(|ds|, i reads ds requires 0 <= i < |ds| => ds[i].percentFree)
  }

  /** `DiskChecker`: the shared timer's interval, the per-tick `warning`
      and `message` fields, the configuration, and the notifications
      shown so far. */
  class DiskChecker {
    var interval: int
    var warning: bool
    var message: string
    const config: Config
    var shown: seq<Notification>

    ghost predicate Valid()
      reads this, config
    {
      config.Valid()
    }

    /** Resolve the configuration and arm the timer with the initial
        interval. */
    constructor (reg: Registry)
      ensures Valid() && fresh(config)
      ensures config.Current() == Resolve(reg).settings
      ensures |config.driveList| > 0
      ensures forall d :: d in config.driveList ==> fresh(d) && d.percentFree == InitialPercentFree
      ensures forall i :: 0 <= i < |config.driveList| ==> fresh(config.driveList[i])
      ensures interval == Resolve(reg).settings.initialInterval
      ensures !warning && shown == []
    {
      var resolved := new Config(reg);
      config := resolved;
      interval := resolved.InitialInterval();
      warning := false;
      message := "";  // null in the program; every tick resets it before use
      shown := [];
      forall i | 0 <= i < |resolved.driveList|
        ensures fresh(resolved.driveList[i])
      {
        assert resolved.driveList[i] in resolved.driveList;
      }
    }

    /** `checkDriveSpace`: one timer tick over the volumes the operating
        system reports, in its order. */
    method CheckDriveSpace(volumes: seq<Volume>, format: Percent -> string)
      requires Valid()
      modifies this, config.driveList
      ensures Valid()
      ensures interval == RaiseInterval(old(interval), config.CheckInterval())
      ensures var after := Run(config.Current(), LettersOf(config.driveList), format,
                               TickState(old(PercentsOf(config.driveList)), []), volumes);
        && PercentsOf(config.driveList) == after.last
        && shown == old(shown) + Report(config.Current(), after.lines)
      ensures !warning && message == ""
    {
      if interval < config.CheckInterval() {
        interval := config.CheckInterval();
      }
      warning := false;
      message := "";
      var lines := CheckVolumes(volumes, format, config.Current(), LettersOf(config.driveList));
      Notify(config.Current(), lines);
    }

    /** The `foreach` over the volumes, in the order they are reported. */
    method CheckVolumes(volumes: seq<Volume>, format: Percent -> string,
                        ghost settings: Settings, ghost letters: seq<char>) returns (ghost lines: seq<string>)
      requires Valid()
      requires settings == config.Current() && letters == LettersOf(config.driveList)
      requires !warning && message == ""
      modifies this`warning, this`message, config.driveList
      ensures var r := Run(settings, letters, format, TickState(old(PercentsOf(config.driveList)), []), volumes);
        && PercentsOf(config.driveList) == r.last
        && lines == r.lines
      ensures message == Concat(lines) && warning == (|lines| > 0)
    {
      ghost var start := TickState(PercentsOf(config.driveList), []);
      ghost var st := start;
      var i := 0;
      while i < |volumes|
        invariant 0 <= i <= |volumes|
        invariant st == Run(settings, letters, format, start, volumes[..i])
        invariant PercentsOf(config.driveList) == st.last
        invariant message == Concat(st.lines) && warning == (|st.lines| > 0)
      {
        assert volumes[..i + 1][..i] == volumes[..i];
        CheckVolume(volumes[i], format, settings, letters, st);
        st := Step(settings, letters, format, st, volumes[i]);
        i := i + 1;
      }
      assert volumes[..i] == volumes;
      lines := st.lines;
    }

    /** The end of a tick: when some drive alerted, complete the message and
        show it once; then clear the per-tick fields. */
    method Notify(ghost settings: Settings, ghost lines: seq<string>)
      requires settings == config.Current()
      requires message == Concat(lines) && warning == (|lines| > 0)
      modifies this`warning, this`message, this`shown
      ensures shown == old(shown) + Report(settings, lines)
      ensures !warning && message == ""
    {
      if warning {
        message := message + Closing;
        if config.WarnMessage() != None {
          message := message + config.WarnMessage().value;
        }
        shown := shown + [Notification(message, Caption)];
        warning := false;
        message := "";
      }
    }

    /** The body of the `foreach` for one volume: skip it when it is not
        ready or not configured; otherwise append its line when it alerts,
        and record its sample on the first drive with its letter. */
    method CheckVolume(volume: Volume, format: Percent -> string,
                       ghost settings: Settings, ghost letters: seq<char>, ghost st: TickState)
      requires Valid()
      requires settings == config.Current() && letters == LettersOf(config.driveList)
      requires PercentsOf(config.driveList) == st.last
      requires message == Concat(st.lines) && warning == (|st.lines| > 0)
      modifies this`warning, this`message, config.driveList
      ensures var r := Step(settings, letters, format, st, volume);
        && PercentsOf(config.driveList) == r.last
        && message == Concat(r.lines)
        && warning == (|r.lines| > 0)
    {
      if volume.isReady {
        var percentFree := Sample(volume);
        var driveLetter := volume.name[0];
        var found := FindDrive(config.Drives(), driveLetter);
        if found.Some? {
          var k := found.value;
          var drv := config.Drives()[k];
          if BelowInt(percentFree, config.WarnPercent())
             && (Below(percentFree, drv.PercentFree()) || config.Obsess())
             && volume.totalFreeSpace < config.WarnBelow()
          {
            warning := true;
            assert (st.lines + [AlertLine(volume.name, percentFree, format)])[..|st.lines|] == st.lines;
            message := message + AlertLine(volume.name, percentFree, format);
          }
          Record(config.Drives(), k, percentFree);
        }
      }
    }
  }

  /** Two timer ticks over the same volumes, with obsess off and distinct
      volume letters, have the effect of the first tick alone: the second
      shows no notification and changes neither the drives nor the
      interval. */
  method RepeatedTick(dc: DiskChecker, volumes: seq<Volume>, format: Percent -> string)
    requires dc.Valid()
    requires !dc.config.Obsess()
    requires DistinctLetters(volumes)
    modifies dc, dc.config.driveList
    ensures dc.Valid()
    ensures dc.interval == RaiseInterval(old(dc.interval), dc.config.CheckInterval())
    ensures var once := Run(dc.config.Current(), LettersOf(dc.config.driveList), format,
                            TickState(old(PercentsOf(dc.config.driveList)), []), volumes);
      && PercentsOf(dc.config.driveList) == once.last
      && dc.shown == old(dc.shown) + Report(dc.config.Current(), once.lines)
  {
    dc.CheckDriveSpace(volumes, format);
    ghost var s := dc.config.Current();
    ghost var letters := LettersOf(dc.config.driveList);
    ghost var afterFirst := PercentsOf(dc.config.driveList);
    ghost var shownFirst := dc.shown;
    RaiseIntervalSettles(old(dc.interval), dc.config.CheckInterval());
    dc.CheckDriveSpace(volumes, format);
    SecondTickIsSilent(s, letters, format, old(PercentsOf(dc.config.driveList)), volumes);
    assert Run(s, letters, format, TickState(afterFirst, []), volumes) == TickState(afterFirst, []);
    assert dc.shown == shownFirst;
  }

  /** `drv.PercentFree = percentFree` on the `k`-th drive of a list of
      distinct drives: only that drive's percentage changes. */
  method Record(ds: seq<Drive>, k: nat, p: Percent)
    requires k < |ds|
    requires forall i, j :: 0 <= i < j < |ds| ==> ds[i] != ds[j]
    modifies ds[k]
    ensures PercentsOf(ds) == old(PercentsOf(ds))[k := p]
  {
    ds[k].SetPercentFree(p);
    forall j | 0 <= j < |ds| && j != k
      ensures ds[j].percentFree == old(ds[j].percentFree)
    {
      assert ds[j] != ds[k];
    }
  }

  // -----------------------------------------------------------------------
  // Properties of a tick.

  /** A not-ready volume, or one whose letter is not configured, changes
      nothing; a configured one records its sample and adds its line exactly
      when the alert condition holds. */
  lemma StepCases(s: Settings, letters: seq<char>, format: Percent -> string, st: TickState, v: Volume)
    requires |st.last| == |letters|
    ensures !v.isReady || VolumeLetter(v) !in letters ==> Step(s, letters, format, st, v) == st
    ensures v.isReady && VolumeLetter(v) in letters ==>
      var k := FindLetter(letters, VolumeLetter(v)).value;
      var r := Step(s, letters, format, st, v);
      && letters[k] == VolumeLetter(v)
      && r.last == st.last[k := Sample(v)]
      && (Alerts(s, Sample(v), v.totalFreeSpace, st.last[k]) ==>
            r.lines == st.lines + [AlertLine(v.name, Sample(v), format)])
      && (!Alerts(s, Sample(v), v.totalFreeSpace, st.last[k]) ==> r.lines == st.lines)
  {
  }

  /** A drive that no ready volume of the tick matches keeps its last sample. */
  lemma {:induction false} RunKeepsUnmatched(s: Settings, letters: seq<char>, format: Percent -> string,
                                              st: TickState, vols: seq<Volume>, k: nat)
    requires |st.last| == |letters| && k < |letters|
    requires forall i :: 0 <= i < |vols| && vols[i].isReady ==> VolumeLetter(vols[i]) != letters[k]
    ensures Run(s, letters, format, st, vols).last[k] == st.last[k]
  {
    if |vols| > 0 {
      var prefix := vols[..|vols| - 1];
      assert forall i :: 0 <= i < |prefix| ==> prefix[i] == vols[i];
      RunKeepsUnmatched(s, letters, format, st, prefix, k);
    }
  }

  /** A tick adds at most one alert line per volume, after those it
      started with. */
  lemma {:induction false} RunLinesBounded(s: Settings, letters: seq<char>, format: Percent -> string,
                                            st: TickState, vols: seq<Volume>)
    requires |st.last| == |letters|
    ensures var r := Run(s, letters, format, st, vols);
      |st.lines| <= |r.lines| <= |st.lines| + |vols| && r.lines[..|st.lines|] == st.lines
  {
    if |vols| > 0 {
      RunLinesBounded(s, letters, format, st, vols[..|vols| - 1]);
    }
  }

  /** With obsess off, a sample equal to the previous one never alerts. */
  lemma RepeatedSampleIsSilent(s: Settings, p: Percent, free: nat)
    requires !s.obsess
    ensures !Alerts(s, p, free, p)
  {
    BelowIrreflexive(p);
  }

  /** With obsess on, the trend is ignored: a low sample alerts whatever
      came before it. */
  lemma ObsessIgnoresTrend(s: Settings, p: Percent, free: nat, last: Percent)
    requires s.obsess
    ensures Alerts(s, p, free, last) <==> BelowInt(p, s.warnPercent) && free < s.warnBelow
  {
  }

  /** Ready volumes with pairwise different letters, as the operating
      system reports them. */
  ghost predicate DistinctLetters(vols: seq<Volume>)
  {
    forall i, j :: 0 <= i < j < |vols| && vols[i].isReady && vols[j].isReady ==>
      VolumeLetter(vols[i]) != VolumeLetter(vols[j])
  }

  /** Every configured drive matched by a ready volume holds that volume's
      sample. */
  ghost predicate Settled(letters: seq<char>, last: seq<Percent>, vols: seq<Volume>)
  {
    && |last| == |letters|
    && forall i :: 0 <= i < |vols| && vols[i].isReady && VolumeLetter(vols[i]) in letters ==>
         last[FindLetter(letters, VolumeLetter(vols[i])).value] == Sample(vols[i])
  }

  /** After a tick over volumes with distinct letters, every matched drive
      holds the sample of its volume. */
  lemma {:induction false} RunSettles(s: Settings, letters: seq<char>, format: Percent -> string,
                                       st: TickState, vols: seq<Volume>)
    requires |st.last| == |letters|
    requires DistinctLetters(vols)
    ensures Settled(letters, Run(s, letters, format, st, vols).last, vols)
  {
    if |vols| > 0 {
      var n := |vols| - 1;
      var prefix := vols[..n];
      assert forall i :: 0 <= i < n ==> prefix[i] == vols[i];
      RunSettles(s, letters, format, st, prefix);
      var before := Run(s, letters, format, st, prefix);
      var v := vols[n];
      if v.isReady && VolumeLetter(v) in letters {
        var kv := FindLetter(letters, VolumeLetter(v)).value;
        forall i | 0 <= i < n && vols[i].isReady && VolumeLetter(vols[i]) in letters
          ensures FindLetter(letters, VolumeLetter(vols[i])).value != kv
        {
          assert VolumeLetter(vols[i]) != VolumeLetter(v);
        }
      }
    }
  }

  /** With obsess off, a tick over volumes whose samples the drives already
      hold raises no alert and changes no drive. */
  lemma {:induction false} SettledRunIsSilent(s: Settings, letters: seq<char>, format: Percent -> string,
                                               st: TickState, vols: seq<Volume>)
    requires !s.obsess
    requires Settled(letters, st.last, vols)
    ensures Run(s, letters, format, st, vols) == st
  {
    if |vols| > 0 {
      var n := |vols| - 1;
      var prefix := vols[..n];
      assert forall i :: 0 <= i < n ==> prefix[i] == vols[i];
      SettledRunIsSilent(s, letters, format, st, prefix);
      var v := vols[n];
      if v.isReady && VolumeLetter(v) in letters {
        RepeatedSampleIsSilent(s, Sample(v), v.totalFreeSpace);
      }
    }
  }

  /** Falling-edge alerting: with obsess off, a second tick that sees the
      same volumes with the same free space as the first raises no alert and
      leaves every drive as the first tick left it. */
  lemma SecondTickIsSilent(s: Settings, letters: seq<char>, format: Percent -> string,
                           last: seq<Percent>, vols: seq<Volume>)
    requires |last| == |letters|
    requires !s.obsess
    requires DistinctLetters(vols)
    ensures var first := Run(s, letters, format, TickState(last, []), vols);
      Run(s, letters, format, TickState(first.last, []), vols) == TickState(first.last, [])
  {
    var first := Run(s, letters, format, TickState(last, []), vols);
    RunSettles(s, letters, format, TickState(last, []), vols);
    SettledRunIsSilent(s, letters, format, TickState(first.last, []), vols);
  }

  /** Why `SecondTickIsSilent` needs distinct letters: volumes `C:\` at 40
      percent and `C:\x` at 30 percent both update drive `C`. At a 50
      percent threshold with obsess off, the first tick leaves the drive at
      30, and repeating it alerts again for `C:\x`, whose 30 is below the
      40 that `C:\` has just recorded. */
  lemma SharedLetterReAlerts(format: Percent -> string)
    ensures var s := Settings(5000, 300000, 50, 104857600, None, false, ['C']);
      var vols := [Volume("C:\\", true, 100, 40), Volume("C:\\x", true, 100, 30)];
      var first := Run(s, ['C'], format, TickState([InitialPercentFree], []), vols);
      var second := Run(s, ['C'], format, TickState(first.last, []), vols);
      && !DistinctLetters(vols)
      && first.last == [Finite(30.0)]
      && second.last == first.last
      && second.lines == [AlertLine("C:\\x", Finite(30.0), format)]
  {
  }

  /** The interval never decreases, reaches the steady interval at the
      first tick, and a further tick leaves it as it is. */
  lemma RaiseIntervalSettles(interval: int, check: int)
    ensures RaiseInterval(RaiseInterval(interval, check), check) == RaiseInterval(interval, check)
    ensures interval >= check ==> RaiseInterval(interval, check) == interval
  {
  }

  /** One drive's samples 40, 30, 35 against a 50 percent threshold alert,
      alert, and stay silent with obsess off; with obsess on, 40, 45, 40 all
      alert (45 is rising but still low) and a sample of 55 does not. */
  lemma HysteresisExamples(s: Settings, free: nat)
    requires s.warnPercent == 50 && free < s.warnBelow
    ensures !s.obsess ==>
      && Alerts(s, Finite(40.0), free, Finite(100.0))
      && Alerts(s, Finite(30.0), free, Finite(40.0))
      && !Alerts(s, Finite(35.0), free, Finite(30.0))
    ensures s.obsess ==>
      && Alerts(s, Finite(40.0), free, Finite(100.0))
      && Alerts(s, Finite(45.0), free, Finite(40.0))
      && Alerts(s, Finite(40.0), free, Finite(45.0))
      && !Alerts(s, Finite(55.0), free, Finite(40.0))
  {
  }
}
