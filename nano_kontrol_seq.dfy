/**
 * NanoKontrolSeqPatch.hpp: the start of a step sequencer driven by a Korg
 * nanoKONTROL2. The patch knows the controller's 51 controls in a table
 * sorted by CC number, gives each lightable button a light index when it
 * is constructed (turning every control's light off as it goes), and looks
 * each incoming Control Change up in the table with a binary search. This
 * revision does nothing with the control it finds beyond recording it.
 */
module NanoKontrolSeq {
  import opened Bits
  import opened Wrappers
  import opened MidiMessages
  import opened Host
  import opened Audio

  /** `CcGroup` */
  datatype CcGroup = Slider | Knob | Record | Mute | Solo | Transport | UniqueLit | UniqueUnlit

  // `CcUniqueId`
  const UNIQUE_SONG_L: nat := 0
  const UNIQUE_SONG_R: nat := 1
  const UNIQUE_MENU_CLICK: nat := 2
  const UNIQUE_MENU_L: nat := 3
  const UNIQUE_MENU_R: nat := 4
  const UNIQUE_SHIFT: nat := 5
  const UNIQUE_REW: nat := 6
  const UNIQUE_FF: nat := 7
  const UNIQUE_STOP: nat := 8
  const UNIQUE_PLAY: nat := 9
  const UNIQUE_REC: nat := 10

  const CC_COUNT: nat := 51
  const LIGHT_COUNT: nat := 30
  /** Parameters registered as outputs. */
  const PORT_COUNT: nat := 16
  /** Parameters below this are CV outputs, the rest gates. */
  const SLIDER_COUNT: nat := 8

  /** `CcInfo`; `lightIdx` is 0 in the static table until the constructor assigns it. */
  datatype CcInfo = CcInfo(cc: byte, group: CcGroup, id: nat, lightIdx: int)

  // `ccDb` as initialised, in the groups the source lays it out in.
  const Sliders: seq<CcInfo> := [
    CcInfo(0, Slider, 0, 0), CcInfo(1, Slider, 1, 0), CcInfo(2, Slider, 2, 0), CcInfo(3, Slider, 3, 0),
    CcInfo(4, Slider, 4, 0), CcInfo(5, Slider, 5, 0), CcInfo(6, Slider, 6, 0), CcInfo(7, Slider, 7, 0)]
  const Knobs: seq<CcInfo> := [
    CcInfo(16, Knob, 0, 0), CcInfo(17, Knob, 1, 0), CcInfo(18, Knob, 2, 0), CcInfo(19, Knob, 3, 0),
    CcInfo(20, Knob, 4, 0), CcInfo(21, Knob, 5, 0), CcInfo(22, Knob, 6, 0), CcInfo(23, Knob, 7, 0)]
  const Solos: seq<CcInfo> := [
    CcInfo(32, Solo, 0, 0), CcInfo(33, Solo, 1, 0), CcInfo(34, Solo, 2, 0), CcInfo(35, Solo, 3, 0),
    CcInfo(36, Solo, 4, 0), CcInfo(37, Solo, 5, 0), CcInfo(38, Solo, 6, 0), CcInfo(39, Solo, 7, 0)]
  const Transport: seq<CcInfo> := [
    CcInfo(41, UniqueUnlit, UNIQUE_PLAY, 0), CcInfo(42, UniqueLit, UNIQUE_STOP, 0),
    CcInfo(43, UniqueLit, UNIQUE_REW, 0), CcInfo(44, UniqueLit, UNIQUE_FF, 0),
    CcInfo(45, UniqueLit, UNIQUE_REC, 0), CcInfo(46, UniqueLit, UNIQUE_SHIFT, 0)]
  const Mutes: seq<CcInfo> := [
    CcInfo(48, Mute, 0, 0), CcInfo(49, Mute, 1, 0), CcInfo(50, Mute, 2, 0), CcInfo(51, Mute, 3, 0),
    CcInfo(52, Mute, 4, 0), CcInfo(53, Mute, 5, 0), CcInfo(54, Mute, 6, 0), CcInfo(55, Mute, 7, 0)]
  const Song: seq<CcInfo> := [CcInfo(58, UniqueUnlit, UNIQUE_SONG_L, 0), CcInfo(59, UniqueUnlit, UNIQUE_SONG_R, 0)]
  const Menu: seq<CcInfo> := [
    CcInfo(60, UniqueUnlit, UNIQUE_MENU_CLICK, 0), CcInfo(61, UniqueUnlit, UNIQUE_MENU_L, 0),
    CcInfo(62, UniqueUnlit, UNIQUE_MENU_R, 0)]
  const Records: seq<CcInfo> := [
    CcInfo(64, Record, 0, 0), CcInfo(65, Record, 1, 0), CcInfo(66, Record, 2, 0), CcInfo(67, Record, 3, 0),
    CcInfo(68, Record, 4, 0), CcInfo(69, Record, 5, 0), CcInfo(70, Record, 6, 0), CcInfo(71, Record, 7, 0)]

  /** `ccDb` */
  const CcDb: seq<CcInfo> := Sliders + Knobs + Solos + Transport + Mutes + Song + Menu + Records

  // ---------------------------------------------------------------------------
  // The table

  /** The CC numbers strictly increase along the table. */
  ghost predicate Ascending(s: seq<CcInfo>)
  {
    forall i, j :: 0 <= i < j < |s| ==> s[i].cc < s[j].cc
  }

  /** Two sorted runs, the first ending below where the second starts, make a sorted run. */
  lemma AscendingAppend(a: seq<CcInfo>, b: seq<CcInfo>)
    requires Ascending(a) && Ascending(b) && |a| > 0 && |b| > 0 && a[|a| - 1].cc < b[0].cc
    ensures Ascending(a + b)
  {
    var s := a + b;
    forall i, j | 0 <= i < j < |s|
      ensures s[i].cc < s[j].cc
    {
      if i < |a| <= j {
        assert s[i].cc <= a[|a| - 1].cc;
        assert b[0].cc <= s[j].cc;
      }
    }
  }

  /** Buttons that get a light: Mute, Solo, Record, the lit unique buttons, and Play. */
  predicate IsLit(info: CcInfo)
  {
    || info.group == Mute || info.group == Solo || info.group == Record
    || info.group == UniqueLit || (info.group == UniqueUnlit && info.id == UNIQUE_PLAY)
  }

  /** How many entries of `s` get a light. */
  function LitCount(s: seq<CcInfo>): (r: nat)
    ensures r <= |s|
  {
    if |s| == 0 then 0 else LitCount(s[..|s| - 1]) + if IsLit(s[|s| - 1]) then 1 else 0
  }

  lemma {:induction false} LitCountPrefix(s: seq<CcInfo>, i: nat, j: nat)
    requires i <= j <= |s|
    ensures LitCount(s[..i]) <= LitCount(s[..j])
    decreases j - i
  {
    if i < j {
      LitCountPrefix(s, i, j - 1);
      assert s[..j][..j - 1] == s[..j - 1];
    }
  }

  lemma LitCountSnoc(s: seq<CcInfo>, c: nat)
    requires c < |s|
    ensures LitCount(s[..c + 1]) == LitCount(s[..c]) + if IsLit(s[c]) then 1 else 0
  {
    assert s[..c + 1][..c] == s[..c];
  }

  /** A run of entries that are all lit, or all unlit, adds its length, or nothing. */
  lemma {:induction false} LitCountRun(s: seq<CcInfo>, i: nat, j: nat, lit: bool)
    requires i <= j <= |s| && forall c :: i <= c < j ==> IsLit(s[c]) == lit
    ensures LitCount(s[..j]) == LitCount(s[..i]) + if lit then j - i else 0
    decreases j - i
  {
    if i < j {
      LitCountRun(s, i, j - 1, lit);
      LitCountSnoc(s, j - 1);
    }
  }

  lemma LitCountAppend(a: seq<CcInfo>, b: seq<CcInfo>)
    ensures LitCount(a + b) == LitCount(a) + LitCount(b)
    decreases |b|
  {
    if |b| > 0 {
      assert (a + b)[..|a + b| - 1] == a + b[..|b| - 1];
      LitCountAppend(a, b[..|b| - 1]);
    } else {
      assert a + b == a;
    }
  }

  /** Each CC number is below the next one. */
  ghost predicate StepsUp(s: seq<CcInfo>)
  {
    forall i :: 0 <= i < |s| - 1 ==> s[i].cc < s[i + 1].cc
  }

  lemma {:induction false} StepsUpOrder(s: seq<CcInfo>, i: nat, j: nat)
    requires StepsUp(s) && i < j < |s|
    ensures s[i].cc < s[j].cc
    decreases j - i
  {
    if i + 1 < j {
      StepsUpOrder(s, i + 1, j);
    }
  }

  lemma StepsUpAscending(s: seq<CcInfo>)
    requires StepsUp(s)
    ensures Ascending(s)
  {
    forall i, j | 0 <= i < j < |s|
      ensures s[i].cc < s[j].cc
    {
      StepsUpOrder(s, i, j);
    }
  }

  /** Each group is sorted. */
  lemma GroupsSorted()
    ensures Ascending(Sliders) && Ascending(Knobs) && Ascending(Solos) && Ascending(Transport)
    ensures Ascending(Mutes) && Ascending(Song) && Ascending(Menu) && Ascending(Records)
  {
    StepsUpAscending(Sliders);
    StepsUpAscending(Knobs);
    StepsUpAscending(Solos);
    StepsUpAscending(Transport);
    StepsUpAscending(Mutes);
    StepsUpAscending(Song);
    StepsUpAscending(Menu);
    StepsUpAscending(Records);
  }

  lemma GroupsLit()
    ensures forall c :: 0 <= c < |Sliders| ==> !IsLit(Sliders[c])
    ensures forall c :: 0 <= c < |Knobs| ==> !IsLit(Knobs[c])
    ensures forall c :: 0 <= c < |Solos| ==> IsLit(Solos[c])
    ensures forall c :: 0 <= c < |Transport| ==> IsLit(Transport[c])
    ensures forall c :: 0 <= c < |Mutes| ==> IsLit(Mutes[c])
    ensures forall c :: 0 <= c < |Song| ==> !IsLit(Song[c])
    ensures forall c :: 0 <= c < |Menu| ==> !IsLit(Menu[c])
    ensures forall c :: 0 <= c < |Records| ==> IsLit(Records[c])
  {
  }

  /** A group of entries all lit, or all unlit, counts its length, or nothing. */
  lemma LitCountGroup(g: seq<CcInfo>, lit: bool)
    requires forall c :: 0 <= c < |g| ==> IsLit(g[c]) == lit
    ensures LitCount(g) == if lit then |g| else 0
  {
    assert g[..0] == [] && g[..|g|] == g;
    LitCountRun(g, 0, |g|, lit);
  }

  /**
   * `ccDb` is sorted by CC number, so no number occurs twice, and thirty of
   * its entries get a light: the Solo, transport, Mute and Record buttons.
   */
  lemma CcDbFacts()
    ensures |CcDb| == CC_COUNT && Ascending(CcDb) && LitCount(CcDb) == LIGHT_COUNT
  {
    GroupsSorted();
    var s := Sliders + Knobs;
    AscendingAppend(Sliders, Knobs);
    AscendingAppend(s, Solos);
    s := s + Solos;
    AscendingAppend(s, Transport);
    s := s + Transport;
    AscendingAppend(s, Mutes);
    s := s + Mutes;
    AscendingAppend(s, Song);
    s := s + Song;
    AscendingAppend(s, Menu);
    s := s + Menu;
    AscendingAppend(s, Records);
    GroupsLit();
    LitCountGroup(Sliders, false);
    LitCountGroup(Knobs, false);
    LitCountGroup(Solos, true);
    LitCountGroup(Transport, true);
    LitCountGroup(Mutes, true);
    LitCountGroup(Song, false);
    LitCountGroup(Menu, false);
    LitCountGroup(Records, true);
    LitCountAppend(Sliders, Knobs);
    LitCountAppend(Sliders + Knobs, Solos);
    LitCountAppend(Sliders + Knobs + Solos, Transport);
    LitCountAppend(Sliders + Knobs + Solos + Transport, Mutes);
    LitCountAppend(Sliders + Knobs + Solos + Transport + Mutes, Song);
    LitCountAppend(Sliders + Knobs + Solos + Transport + Mutes + Song, Menu);
    LitCountAppend(Sliders + Knobs + Solos + Transport + Mutes + Song + Menu, Records);
  }

  /** Entry c after the constructor: lit buttons numbered 0, 1, 2, ... in table order, the rest -1. */
  function Assign(s: seq<CcInfo>, c: nat): CcInfo
    requires c < |s|
  {
    s[c].(lightIdx := if IsLit(s[c]) then LitCount(s[..c]) else -1)
  }

  /** The numbering is a bijection from the lit entries onto 0..LitCount(s)-1 that keeps table order. */
  lemma AssignNumbersInOrder(s: seq<CcInfo>, c: nat, d: nat)
    requires c < d < |s| && IsLit(s[c])
    ensures 0 <= Assign(s, c).lightIdx < Assign(s, d).lightIdx + (if IsLit(s[d]) then 0 else LitCount(s) + 1)
    ensures Assign(s, c).lightIdx < LitCount(s)
  {
    LitCountSnoc(s, c);
    LitCountPrefix(s, c + 1, d);
    LitCountPrefix(s, d, |s|);
    assert s[..|s|] == s;
  }

  // ---------------------------------------------------------------------------
  // Messages and parameter names

  /** `lightSet`: `MidiMessage(CONTROL_CHANGE >> 4, CONTROL_CHANGE, cc, on ? 127 : 0)`, the CC cut to 8 bits. */
  function LightSetMessage(cc: nat, on: bool): MidiMessage
  {
    MidiMessage(CONTROL_CHANGE / 16, CONTROL_CHANGE, (cc % 256) as byte, if on then 127 else 0)
  }

  /** The light message reads back as a Control Change on channel 0 for that controller, 127 or 0. */
  lemma LightSetMessageDecodes(cc: byte, on: bool)
    ensures var m := LightSetMessage(cc, on);
      && m.IsControlChange() && m.GetChannel() == 0 && m.GetControllerNumber() == cc
      && m.GetControllerValue() == (if on then 127 else 0)
      && m.GetStatus() == CONTROL_CHANGE && m.d0 == USB_COMMAND_CONTROL_CHANGE
  {
  }

  /** The constructor's second loop: the off message of every table entry, in table order. */
  function OffCalls(s: seq<CcInfo>, n: nat): seq<HostCall>
    requires n <= |s|
  {
    seq(n, j requires 0 <= j < n => SendMidi(LightSetMessage(s[j].cc as nat, false)))
  }

  lemma OffCallsSnoc(s: seq<CcInfo>, n: nat)
    requires n < |s|
    ensures OffCalls(s, n + 1) == OffCalls(s, n) + [SendMidi(LightSetMessage(s[n].cc as nat, false))]
  {
  }

  /** `scratch`: "CV" and 1 + c for the first eight ports, then "TG" and 1 + c / 2; then ">". */
  function PortName(c: nat): string
    requires c < PORT_COUNT
  {
    if c < SLIDER_COUNT then ['C', 'V', ('1' as int + c) as char, '>']
    else ['T', 'G', ('1' as int + c / 2) as char, '>']
  }

  /**
   * The CV ports are named CV1..CV8, all different; the gate ports
   * share their names in pairs, TG5 for ports 8 and 9 up to TG8 for ports
   * 14 and 15.
   */
  lemma PortNames(c: nat, d: nat)
    requires c < d < PORT_COUNT
    ensures d < SLIDER_COUNT ==> PortName(c) != PortName(d) && PortName(d)[2] == ('1' as int + d) as char
    ensures SLIDER_COUNT <= c ==> (PortName(c) == PortName(d) <==> c / 2 == d / 2)
    ensures c < SLIDER_COUNT <= d ==> PortName(c) != PortName(d)
    ensures SLIDER_COUNT <= d ==> '5' <= PortName(d)[2] <= '8'
  {
    assert PortName(c)[2] == ('1' as int + (if c < SLIDER_COUNT then c else c / 2)) as char;
    assert PortName(d)[2] == ('1' as int + (if d < SLIDER_COUNT then d else d / 2)) as char;
  }

  /** The constructor's first loop: ports 0..n-1 registered in order under their names. */
  function RegisterCalls(n: nat): seq<HostCall>
    requires n <= PORT_COUNT
  {
    seq(n, j requires 0 <= j < n => RegisterParameter(ParameterIds[j], PortName(j)))
  }

  lemma RegisterCallsSnoc(n: nat)
    requires n < PORT_COUNT
    ensures RegisterCalls(n + 1) == RegisterCalls(n) + [RegisterParameter(ParameterIds[n], PortName(n))]
  {
  }

  // ---------------------------------------------------------------------------
  // The search's probe budget

  /**
   * Probes the search needs, at most, to find a CC present in a window
   * whose ends are `w` apart when it probes the window's midpoint: each
   * probe halves the window, so the bound is logarithmic in its width.
   */
  function Budget(w: nat): (r: nat)
    ensures r >= 1
    ensures w <= Pow2(r - 1)
  {
    if w == 0 then 1 else if w == 1 then 2 else 1 + Budget((w + 1) / 2)
  }

  lemma {:induction false} BudgetMonotone(a: nat, b: nat)
    requires a <= b
    ensures Budget(a) <= Budget(b)
    decreases b
  {
    if a >= 2 {
      BudgetMonotone((a + 1) / 2, (b + 1) / 2);
    }
  }

  /** A full table takes at most eight probes. */
  lemma BudgetOfTable()
    ensures Budget(CC_COUNT - 1) == 8
  {
    assert Budget(2) == 3;
    assert Budget(4) == 4;
    assert Budget(7) == 5;
    assert Budget(13) == 6;
    assert Budget(25) == 7;
  }

  /** How the search of `processMidi` ends. */
  datatype SearchEnd =
    | Found(idx: nat, probes: nat)
    | Unrecognized(probes: nat)
    | GaveUp

  /** The search's window `[low, high]` and the entry it probes next. */
  datatype Probe = Probe(low: int, ccIdx: int, high: int)

  ghost predicate Window(p: Probe)
  {
    0 <= p.low <= p.ccIdx <= p.high < CC_COUNT
  }

  /**
   * After a miss at `p.ccIdx`: one end of the window moves to the probe and
   * the new probe halves what is left, nudged by one when halving would
   * probe the same entry again. None when the window has closed, which
   * means the CC is not in the table; the probe index is cut to 8 bits.
   */
  function Narrow(db: seq<CcInfo>, cc: byte, p: Probe): (r: Option<Probe>)
    requires |db| == CC_COUNT && Window(p) && cc != db[p.ccIdx].cc
    ensures r.Some? ==> Window(r.value)
    ensures r.None? <==> if cc < db[p.ccIdx].cc then p.low >= p.ccIdx else p.ccIdx >= p.high
  {
    if cc < db[p.ccIdx].cc then
      var n := p.low + (p.ccIdx - p.low) / 2;
      var next := if p.ccIdx == n then n - 1 else n;
      if p.low >= p.ccIdx then None else
        SmallCut(next);
        Some(Probe(p.low, next % 256, p.ccIdx))
    else
      var n := p.ccIdx + (p.high - p.ccIdx) / 2;
      var next := if p.ccIdx == n then n + 1 else n;
      if p.ccIdx >= p.high then None else
        SmallCut(next);
        Some(Probe(p.ccIdx, next % 256, p.high))
  }

  /** Cutting a probe index to 8 bits leaves an index into the table unchanged. */
  lemma SmallCut(x: int)
    requires 0 <= x < 256
    ensures x % 256 == x
  {
  }

  /** The search from probe `p` after `probes` probes; more than ten probes give up. */
  function Search(db: seq<CcInfo>, cc: byte, p: Probe, probes: nat): SearchEnd
    requires |db| == CC_COUNT && Window(p) && probes <= 11
    decreases 11 - probes
  {
    if probes > 10 then GaveUp
    else if cc == db[p.ccIdx].cc then Found(p.ccIdx, probes + 1)
    else match Narrow(db, cc, p)
      case None => Unrecognized(probes + 1)
      case Some(q) => Search(db, cc, q, probes + 1)
  }

  /** The search from the start: the whole table, probing its middle entry. */
  function Lookup(db: seq<CcInfo>, cc: byte): SearchEnd
    requires |db| == CC_COUNT
  {
    Search(db, cc, Probe(0, CC_COUNT / 2, CC_COUNT - 1), 0)
  }

  /** The search only reports an entry that holds the CC. */
  lemma {:induction false} SearchSound(db: seq<CcInfo>, cc: byte, p: Probe, probes: nat)
    requires |db| == CC_COUNT && Window(p) && probes <= 11
    ensures var r := Search(db, cc, p, probes);
      r.Found? ==> r.idx < CC_COUNT && db[r.idx].cc == cc && r.probes > probes
    decreases 11 - probes
  {
    if probes <= 10 && cc != db[p.ccIdx].cc && Narrow(db, cc, p).Some? {
      SearchSound(db, cc, Narrow(db, cc, p).value, probes + 1);
    }
  }

  /**
   * The search is closing in on entry t of `db`, which holds `cc`: t lies
   * in the window, the probe is the window's midpoint or (after a nudge)
   * its upper end, and the probes left are enough.
   */
  ghost predicate OnTrack(db: seq<CcInfo>, cc: byte, t: int, p: Probe, probes: int)
  {
    Ascending(db) && Tracking(db, cc, t, p, probes)
  }

  /** OnTrack without the table's order. */
  ghost predicate Tracking(db: seq<CcInfo>, cc: byte, t: int, p: Probe, probes: int)
  {
    && |db| == CC_COUNT && Window(p) && p.low <= t <= p.high && db[t].cc == cc
    && ((p.ccIdx == p.low + (p.high - p.low) / 2 && probes + Budget(p.high - p.low) <= 8)
        || (p.high == p.low + 1 && p.ccIdx == p.high && t == p.high && probes + 1 <= 8))
  }

  /** In a sorted table, a smaller CC sits at a smaller index. */
  lemma AscendingOrder(db: seq<CcInfo>, i: int, j: int)
    requires Ascending(db) && 0 <= i < |db| && 0 <= j < |db| && db[i].cc < db[j].cc
    ensures i < j
  {
  }

  /** A miss on track stays on track: the window does not close on t, and the budget shrinks. */
  lemma NarrowOnTrack(db: seq<CcInfo>, cc: byte, t: int, p: Probe, probes: int)
    requires OnTrack(db, cc, t, p, probes) && cc != db[p.ccIdx].cc
    ensures Narrow(db, cc, p).Some? && OnTrack(db, cc, t, Narrow(db, cc, p).value, probes + 1)
  {
    if cc < db[p.ccIdx].cc {
      AscendingOrder(db, t, p.ccIdx);
      NarrowDown(db, cc, t, p, probes);
    } else {
      AscendingOrder(db, p.ccIdx, t);
      NarrowUp(db, cc, t, p, probes);
    }
  }

  lemma NarrowDown(db: seq<CcInfo>, cc: byte, t: int, p: Probe, probes: int)
    requires Tracking(db, cc, t, p, probes) && cc < db[p.ccIdx].cc && t < p.ccIdx
    ensures Narrow(db, cc, p).Some? && Tracking(db, cc, t, Narrow(db, cc, p).value, probes + 1)
  {
    var n := HalveDown(p.low, p.ccIdx, p.high, probes);
    SmallCut(n);
    assert Narrow(db, cc, p) == Some(Probe(p.low, n, p.ccIdx));
  }

  /** The budget after a miss below the midpoint: the lower half, probed at its midpoint. */
  lemma HalveDown(low: int, ccIdx: int, high: int, probes: int) returns (n: int)
    requires 0 <= low < ccIdx <= high < CC_COUNT && ccIdx == low + (high - low) / 2 && probes + Budget(high - low) <= 8
    ensures n == low + (ccIdx - low) / 2 && n != ccIdx && 0 <= n < 256
    ensures probes + 1 + Budget(ccIdx - low) <= 8
  {
    var w := high - low;
    assert w >= 2 && ccIdx - low == w / 2;
    BudgetMonotone(w / 2, (w + 1) / 2);
    n := low + (ccIdx - low) / 2;
  }

  lemma NarrowUp(db: seq<CcInfo>, cc: byte, t: int, p: Probe, probes: int)
    requires Tracking(db, cc, t, p, probes) && cc > db[p.ccIdx].cc && t > p.ccIdx
    ensures Narrow(db, cc, p).Some? && Tracking(db, cc, t, Narrow(db, cc, p).value, probes + 1)
  {
    var n := HalveUp(p.low, p.ccIdx, p.high, probes);
    SmallCut(n);
    if p.high - p.ccIdx == 1 {
      assert Narrow(db, cc, p) == Some(Probe(p.ccIdx, p.high, p.high));
    } else {
      assert Narrow(db, cc, p) == Some(Probe(p.ccIdx, n, p.high));
    }
  }

  /** The budget after a miss above the midpoint: the upper half, or its top end when one step is left. */
  lemma HalveUp(low: int, ccIdx: int, high: int, probes: int) returns (n: int)
    requires 0 <= low <= ccIdx < high < CC_COUNT && ccIdx == low + (high - low) / 2 && probes + Budget(high - low) <= 8
    ensures n == ccIdx + (high - ccIdx) / 2 && 0 <= n < 256
    ensures high - ccIdx == 1 ==> n == ccIdx && probes + 2 <= 8
    ensures high - ccIdx > 1 ==> n != ccIdx && probes + 1 + Budget(high - ccIdx) <= 8
  {
    var w := high - low;
    var v := high - ccIdx;
    assert w >= 1 && v == (w + 1) / 2;
    if w >= 2 {
      assert Budget(w) == 1 + Budget(v);
    }
    n := ccIdx + v / 2;
  }

  /** On track, the search finds t within eight probes. */
  lemma {:induction false} SearchComplete(db: seq<CcInfo>, cc: byte, t: int, p: Probe, probes: nat)
    requires OnTrack(db, cc, t, p, probes)
    ensures probes <= 11 && Search(db, cc, p, probes).Found?
    ensures Search(db, cc, p, probes).idx == t && Search(db, cc, p, probes).probes <= 8
    decreases 8 - probes
  {
    if cc != db[p.ccIdx].cc {
      NarrowOnTrack(db, cc, t, p, probes);
      SearchComplete(db, cc, t, Narrow(db, cc, p).value, probes + 1);
    } else {
      assert t == p.ccIdx;
    }
  }

  /**
   * On a sorted table the search finds a CC exactly when the table holds
   * it, at the entry that holds it, within eight probes, so the guard
   * never stops the search for a CC the table holds.
   */
  lemma LookupCorrect(db: seq<CcInfo>, cc: byte)
    requires |db| == CC_COUNT && Ascending(db)
    ensures Lookup(db, cc).Found? <==> exists t :: 0 <= t < CC_COUNT && db[t].cc == cc
    ensures Lookup(db, cc).Found? ==> Lookup(db, cc).idx < CC_COUNT && db[Lookup(db, cc).idx].cc == cc
    ensures Lookup(db, cc).Found? ==> 1 <= Lookup(db, cc).probes <= 8
  {
    LookupSound(db, cc);
    var r := Lookup(db, cc);
    if r.Found? {
      LookupFinds(db, cc, r.idx);
    }
    if t :| 0 <= t < CC_COUNT && db[t].cc == cc {
      LookupFinds(db, cc, t);
    }
  }

  lemma LookupSound(db: seq<CcInfo>, cc: byte)
    requires |db| == CC_COUNT
    ensures Lookup(db, cc).Found? ==> Lookup(db, cc).idx < CC_COUNT && db[Lookup(db, cc).idx].cc == cc
    ensures Lookup(db, cc).Found? ==> Lookup(db, cc).probes >= 1
  {
    SearchSound(db, cc, Probe(0, CC_COUNT / 2, CC_COUNT - 1), 0);
  }

  lemma LookupFinds(db: seq<CcInfo>, cc: byte, t: int)
    requires |db| == CC_COUNT && Ascending(db) && 0 <= t < CC_COUNT && db[t].cc == cc
    ensures Lookup(db, cc).Found? && Lookup(db, cc).idx == t && Lookup(db, cc).probes <= 8
  {
    BudgetOfTable();
    SearchComplete(db, cc, t, Probe(0, CC_COUNT / 2, CC_COUNT - 1), 0);
  }

  /**
   * CC 10 is not in the table: it falls between entries 7 (CC 7) and 8
   * (CC 16). The window shrinks to [7, 8] and then the probe swings
   * between the two, the nudge keeping the window open, until the guard
   * after the eleventh probe ends the search.
   */
  lemma LookupSwingsBetweenNeighbours()
    ensures Lookup(CcDb, 10) == GaveUp
  {
    CcDbProbed();
    SwingInTable(CcDb);
  }

  /** The entries the search for CC 10 probes. */
  lemma CcDbProbed()
    ensures |CcDb| == CC_COUNT
    ensures CcDb[25].cc == 42 && CcDb[12].cc == 20 && CcDb[6].cc == 6 && CcDb[9].cc == 17
    ensures CcDb[7].cc == 7 && CcDb[8].cc == 16
  {
    assert CcDb[25] == Transport[1];
    assert CcDb[12] == Knobs[4] && CcDb[9] == Knobs[1] && CcDb[8] == Knobs[0];
    assert CcDb[6] == Sliders[6] && CcDb[7] == Sliders[7];
  }

  lemma SwingInTable(db: seq<CcInfo>)
    requires |db| == CC_COUNT
    requires db[25].cc == 42 && db[12].cc == 20 && db[6].cc == 6 && db[9].cc == 17
    requires db[7].cc == 7 && db[8].cc == 16
    ensures Lookup(db, 10) == GaveUp
  {
    assert Search(db, 10, Probe(7, 8, 8), 11) == GaveUp;
    assert Narrow(db, 10, Probe(7, 7, 8)) == Some(Probe(7, 8, 8));
    assert Search(db, 10, Probe(7, 7, 8), 10) == GaveUp;
    assert Narrow(db, 10, Probe(7, 8, 8)) == Some(Probe(7, 7, 8));
    assert Search(db, 10, Probe(7, 8, 8), 9) == GaveUp;
    assert Search(db, 10, Probe(7, 7, 8), 8) == GaveUp;
    assert Search(db, 10, Probe(7, 8, 8), 7) == GaveUp;
    assert Search(db, 10, Probe(7, 7, 8), 6) == GaveUp;
    assert Narrow(db, 10, Probe(7, 8, 9)) == Some(Probe(7, 7, 8));
    assert Search(db, 10, Probe(7, 8, 9), 5) == GaveUp;
    assert Narrow(db, 10, Probe(6, 7, 9)) == Some(Probe(7, 8, 9));
    assert Search(db, 10, Probe(6, 7, 9), 4) == GaveUp;
    assert Narrow(db, 10, Probe(6, 9, 12)) == Some(Probe(6, 7, 9));
    assert Search(db, 10, Probe(6, 9, 12), 3) == GaveUp;
    assert Narrow(db, 10, Probe(0, 6, 12)) == Some(Probe(6, 9, 12));
    assert Search(db, 10, Probe(0, 6, 12), 2) == GaveUp;
    assert Narrow(db, 10, Probe(0, 12, 25)) == Some(Probe(0, 6, 12));
    assert Search(db, 10, Probe(0, 12, 25), 1) == GaveUp;
    assert Narrow(db, 10, Probe(0, 25, 50)) == Some(Probe(0, 12, 25));
    assert Search(db, 10, Probe(0, 25, 50), 0) == GaveUp;
  }

  // ---------------------------------------------------------------------------
  // The patch

  class NanoKontrolSeqPatch {
    /** The global `ccDb`, whose `lightIdx` fields the constructor fills in. */
    const ccDb: array<CcInfo>
    /** `ccDb` as initialised. */
    const table: seq<CcInfo>
    const lightOn: array<bool>
    const lightCcIdx: array<byte>
    var debug1: int
    var debug2: int
    var hostLog: seq<HostCall>

    ghost predicate Valid()
      reads this, ccDb, lightCcIdx
    {
      && ccDb.Length == CC_COUNT && lightOn.Length == LIGHT_COUNT && lightCcIdx.Length == LIGHT_COUNT
      && |table| == CC_COUNT && Ascending(table) && LitCount(table) == LIGHT_COUNT
      && (forall c :: 0 <= c < CC_COUNT ==> ccDb[c] == Assign(table, c))
      && LightsInverse()
    }

    /** `lightCcIdx` and the `lightIdx` fields are inverse to each other. */
    ghost predicate LightsInverse()
      reads this, ccDb, lightCcIdx
      requires ccDb.Length == CC_COUNT && lightCcIdx.Length == LIGHT_COUNT && |table| == CC_COUNT
    {
      && (forall c :: 0 <= c < CC_COUNT && IsLit(table[c]) ==>
            0 <= ccDb[c].lightIdx < LIGHT_COUNT && lightCcIdx[ccDb[c].lightIdx] as int == c)
      && (forall k :: 0 <= k < LIGHT_COUNT ==>
            lightCcIdx[k] as int < CC_COUNT && IsLit(table[lightCcIdx[k]]) && ccDb[lightCcIdx[k]].lightIdx == k)
    }

    /** Clear the lights, register the 16 ports, then build the light table, turning each control off. */
    constructor()
      ensures Valid() && fresh(ccDb) && fresh(lightOn) && fresh(lightCcIdx)
      ensures table == CcDb
      ensures forall j :: 0 <= j < LIGHT_COUNT ==> !lightOn[j]
      ensures hostLog == RegisterCalls(PORT_COUNT) + OffCalls(table, CC_COUNT)
    {
      CcDbFacts();
      ccDb := new CcInfo[CC_COUNT](i requires 0 <= i < CC_COUNT => CcDb[i]);
      table := CcDb;
      lightOn := new bool[LIGHT_COUNT](_ => false);
      lightCcIdx := new byte[LIGHT_COUNT](_ => 0);
      var log := RegisterPorts();
      hostLog := log;
      new;
      assert ccDb[..] == table;
      BuildLightDb();
    }

    /** `lightSet` */
    method LightSet(cc: nat, on: bool)
      modifies this
      ensures hostLog == old(hostLog) + [SendMidi(LightSetMessage(cc, on))]
      ensures debug1 == old(debug1) && debug2 == old(debug2)
    {
      hostLog := hostLog + [SendMidi(LightSetMessage(cc, on))];
    }

    /** The constructor's second loop: number the lit entries and send each entry's off message. */
    method BuildLightDb()
      requires ccDb.Length == CC_COUNT && lightCcIdx.Length == LIGHT_COUNT
      requires |table| == CC_COUNT && LitCount(table) == LIGHT_COUNT && ccDb[..] == table
      modifies this, ccDb, lightCcIdx
      ensures forall c :: 0 <= c < CC_COUNT ==> ccDb[c] == Assign(table, c)
      ensures LightsInverse()
      ensures hostLog == old(hostLog) + OffCalls(table, CC_COUNT)
    {
      var lightIdx := 0;
      var c := 0;
      NumberedStart();
      while c < CC_COUNT
        invariant 0 <= c <= CC_COUNT && NumberedUpTo(c, lightIdx)
        invariant hostLog == old(hostLog) + OffCalls(table, c)
      {
        var cc := ccDb[c].cc;
        lightIdx := NumberOne(c, lightIdx);
        LightSet(cc as nat, false);
        OffCallsSnoc(table, c);
        c := c + 1;
      }
      NumberedAll(lightIdx);
    }

    /** The second loop after `c` passes, `lightIdx` lights handed out. */
    ghost predicate NumberedUpTo(c: nat, lightIdx: nat)
      reads ccDb, lightCcIdx
    {
      && ccDb.Length == CC_COUNT && lightCcIdx.Length == LIGHT_COUNT
      && |table| == CC_COUNT && LitCount(table) == LIGHT_COUNT
      && c <= CC_COUNT && lightIdx == LitCount(table[..c]) && lightIdx <= LIGHT_COUNT
      && (forall d :: 0 <= d < c ==> ccDb[d] == Assign(table, d))
      && (forall d :: c <= d < CC_COUNT ==> ccDb[d] == table[d])
      && (forall d :: 0 <= d < c && IsLit(table[d]) ==>
            0 <= ccDb[d].lightIdx < lightIdx && lightCcIdx[ccDb[d].lightIdx] as int == d)
      && (forall k :: 0 <= k < lightIdx ==>
            lightCcIdx[k] as int < c && IsLit(table[lightCcIdx[k]]) && ccDb[lightCcIdx[k]].lightIdx == k)
    }

    /** One pass of the second loop: a lit entry gets the next light, an unlit one -1. */
    method NumberOne(c: nat, lightIdx: nat) returns (next: nat)
      requires c < CC_COUNT && NumberedUpTo(c, lightIdx)
      modifies ccDb, lightCcIdx
      ensures NumberedUpTo(c + 1, next)
    {
      LitCountSnoc(table, c);
      LitCountPrefix(table, c + 1, CC_COUNT);
      assert table[..CC_COUNT] == table;
      if IsLit(ccDb[c]) {
        NumberLit(c, lightIdx);
        next := lightIdx + 1;
      } else {
        NumberUnlit(c, lightIdx);
        next := lightIdx;
      }
    }

    method NumberLit(c: nat, lightIdx: nat)
      requires c < CC_COUNT && NumberedUpTo(c, lightIdx) && IsLit(table[c])
      requires lightIdx < LIGHT_COUNT && LitCount(table[..c + 1]) == lightIdx + 1
      modifies ccDb, lightCcIdx
      ensures NumberedUpTo(c + 1, lightIdx + 1)
    {
      ccDb[c] := ccDb[c].(lightIdx := lightIdx);
      lightCcIdx[lightIdx] := c as byte;
    }

    method NumberUnlit(c: nat, lightIdx: nat)
      requires c < CC_COUNT && NumberedUpTo(c, lightIdx) && !IsLit(table[c])
      requires LitCount(table[..c + 1]) == lightIdx
      modifies ccDb
      ensures NumberedUpTo(c + 1, lightIdx)
    {
      ccDb[c] := ccDb[c].(lightIdx := -1);
    }

    lemma NumberedStart()
      requires ccDb.Length == CC_COUNT && lightCcIdx.Length == LIGHT_COUNT
      requires |table| == CC_COUNT && LitCount(table) == LIGHT_COUNT && ccDb[..] == table
      ensures NumberedUpTo(0, 0)
    {
      assert table[..0] == [];
      assert forall d :: 0 <= d < CC_COUNT ==> ccDb[d] == ccDb[..][d];
    }

    /** After the last pass every entry is numbered and the two tables are inverse. */
    lemma NumberedAll(lightIdx: nat)
      requires NumberedUpTo(CC_COUNT, lightIdx)
      ensures forall c :: 0 <= c < CC_COUNT ==> ccDb[c] == Assign(table, c)
      ensures LightsInverse()
    {
      assert table[..CC_COUNT] == table;
    }

    /**
     * `processMidi`: a Control Change is looked up in `ccDb`. `found` is
     * the entry the search stops at, which this revision only records in
     * `debug1`.
     */
    method ProcessMidi(msg: MidiMessage) returns (found: Option<nat>)
      requires Valid()
      modifies this
      ensures Valid() && hostLog == old(hostLog)
      ensures msg.GetStatus() != CONTROL_CHANGE ==> found == None && debug1 == -2 && debug2 == -2
      ensures msg.GetStatus() == CONTROL_CHANGE ==>
        (found.Some? <==> exists t :: 0 <= t < CC_COUNT && ccDb[t].cc == msg.d2)
      ensures found.Some? ==>
        found.value < CC_COUNT && ccDb[found.value].cc == msg.d2 && debug1 == msg.d2 as int && 1 <= debug2 <= 8
      ensures msg.GetStatus() == CONTROL_CHANGE && found == None ==>
        debug1 == -1 || (debug1 == msg.d2 as int && debug2 == 11)
    {
      debug1, debug2 := -2, -2;
      found := None;
      if msg.GetStatus() == CONTROL_CHANGE {
        DbAscending();
        LookupCorrect(ccDb[..], msg.d2);
        found := FindCc(msg.d2);
      }
    }

    /** The binary search of `processMidi`, recording its end in the debug fields. */
    method FindCc(cc: byte) returns (found: Option<nat>)
      requires ccDb.Length == CC_COUNT
      modifies this
      ensures hostLog == old(hostLog)
      ensures match Lookup(ccDb[..], cc)
        case Found(i, p) => found == Some(i) && debug1 == cc as int && debug2 == p
        case Unrecognized(p) => found == None && debug1 == -1 && debug2 == p
        case GaveUp => found == None && debug1 == cc as int && debug2 == 11
    {
      ghost var db := ccDb[..];
      found := None;
      var ccIdx: int := CC_COUNT / 2;
      debug1, debug2 := -1, 0;
      var low: int := 0;
      var high: int := CC_COUNT - 1;
      while true
        invariant 0 <= debug2 <= 11 && debug1 == -1 && found == None
        invariant Window(Probe(low, ccIdx, high))
        invariant Search(db, cc, Probe(low, ccIdx, high), debug2) == Lookup(db, cc)
        invariant hostLog == old(hostLog)
        decreases 11 - debug2
      {
        if debug2 > 10 {
          debug1 := cc as int;
          return;
        }
        var info := ccDb[ccIdx];
        assert info == db[ccIdx];
        debug2 := debug2 + 1;
        if cc == info.cc {
          break;
        }
        var newCcIdx;
        low, newCcIdx, high := NarrowWindow(db, cc, info.cc, low, ccIdx, high);
        if low >= high {
          return;
        }
        ccIdx := newCcIdx % 256;
      }
      debug1 := ccDb[ccIdx].cc as int;
      found := Some(ccIdx);
    }

    lemma DbAscending()
      requires Valid()
      ensures Ascending(ccDb[..])
    {
      forall i, j | 0 <= i < j < CC_COUNT
        ensures ccDb[..][i].cc < ccDb[..][j].cc
      {
        assert ccDb[i] == Assign(table, i) && ccDb[j] == Assign(table, j);
      }
    }

    /** `processAudio`: both channels silent. */
    method ProcessAudio(left: array<real>, right: array<real>)
      requires left != right
      modifies left, right
      ensures Silenced(left[..], old(left[..]), BlockSize(left, right))
      ensures Silenced(right[..], old(right[..]), BlockSize(left, right))
    {
      var size := BlockSize(left, right);
      Silence(left, size);
      Silence(right, size);
    }
  }

  /** The window step of the search after a miss at `ccIdx`. */
  method NarrowWindow(ghost db: seq<CcInfo>, cc: byte, probed: byte, low: int, ccIdx: int, high: int) returns (low': int, newCcIdx: int, high': int)
    requires |db| == CC_COUNT && Window(Probe(low, ccIdx, high)) && probed == db[ccIdx].cc && cc != probed
    ensures Narrow(db, cc, Probe(low, ccIdx, high)) == if low' >= high' then None else Some(Probe(low', newCcIdx % 256, high'))
  {
    low', high' := low, high;
    if cc < probed {
      high' := ccIdx;
      newCcIdx := low + (ccIdx - low) / 2;
      if ccIdx == newCcIdx {
        newCcIdx := newCcIdx - 1;
      }
    } else {
      low' := ccIdx;
      newCcIdx := ccIdx + (high - ccIdx) / 2;
      if ccIdx == newCcIdx {
        newCcIdx := newCcIdx + 1;
      }
    }
  }

  /** The constructor's first loop: register the 16 ports as outputs. */
  method RegisterPorts() returns (log: seq<HostCall>)
    ensures log == RegisterCalls(PORT_COUNT)
  {
    log := [];
    var c := 0;
    while c < PORT_COUNT
      invariant 0 <= c <= PORT_COUNT && log == RegisterCalls(c)
    {
      var name := PortScratch(c);
      log := log + [RegisterParameter(ParameterIds[c], name)];
      RegisterCallsSnoc(c);
      c := c + 1;
    }
  }

  /** The name the first loop writes into `scratch` for port c. */
  method PortScratch(c: nat) returns (name: string)
    requires c < PORT_COUNT
    ensures name == PortName(c)
  {
    var id := c;
    if c < SLIDER_COUNT {
      name := ['C', 'V', ('1' as int + id) as char, '>'];
    } else {
      id := id / 2;
      name := ['T', 'G', ('1' as int + id) as char, '>'];
    }
  }
}
