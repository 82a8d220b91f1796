/**
 * NanoKontrolTestPatch.hpp: a light show on a Korg nanoKONTROL2. Every
 * trigger period one step runs: up to FLIER_COUNT "fliers" walk along the
 * NORMAL_COUNT normal lights, each at half the speed of the one before,
 * and "specials" run along the last SPECIAL_COUNT lights. Only lights that
 * changed since the previous step are sent to the controller, and the
 * first 16 lights are mirrored to parameters.
 */
module NanoKontrolTest {
  import opened Bits
  import opened MidiMessages
  import opened Host
  import opened Audio

  const LIGHTS: nat := 30
  const FLIER_COUNT: nat := 3
  const SPECIAL_COUNT: nat := 6
  const NORMAL_COUNT: nat := LIGHTS - SPECIAL_COUNT
  /** Lights mirrored to parameters. */
  const MIRRORED: nat := 16

  /** `lightCC`: the controller number of each light. */
  const LightCc: seq<byte> := [71, 70, 69, 68, 67, 66, 65, 64, 55, 54, 53, 52, 51, 50, 49, 48,
                               39, 38, 37, 36, 35, 34, 33, 32, 45, 41, 42, 44, 43, 46]

  /** No two lights share a controller number. */
  lemma LightCcDistinct()
    ensures |LightCc| == LIGHTS
    ensures forall i, j :: 0 <= i < j < LIGHTS ==> LightCc[i] != LightCc[j]
  {
    forall i | 0 <= i < LIGHTS
      ensures LightOfCc(LightCc[i]) == i
    {
    }
  }

  /** The light a controller number belongs to, read back from LightCc. */
  function LightOfCc(cc: byte): int
  {
    if 64 <= cc <= 71 then 71 - cc as int
    else if 48 <= cc <= 55 then 63 - cc as int
    else if 32 <= cc <= 39 then 55 - cc as int
    else if cc == 45 then 24
    else if 41 <= cc <= 44 then [25, 26, 28, 27][cc - 41]
    else if cc == 46 then 29
    else -1
  }

  /** The message `lightSet` sends: a Control Change of 127 (on) or 0 (off). */
  function LightMessage(light: nat, on: bool): MidiMessage
    requires light < LIGHTS
  {
    ControlMessage(LightCc[light], on)
  }

  /** `MidiMessage(0x0B, CONTROL_CHANGE, cc, on ? 127 : 0)` */
  function ControlMessage(cc: byte, on: bool): MidiMessage
  {
    MidiMessage(USB_COMMAND_CONTROL_CHANGE, CONTROL_CHANGE, cc, if on then 127 else 0)
  }

  /** No controller number occurs twice in `table`. */
  ghost predicate Injective(table: seq<byte>)
  {
    forall i, j :: 0 <= i < j < |table| ==> table[i] != table[j]
  }

  /** The message is a Control Change on channel 0 for the light's controller. */
  lemma LightMessageIsCc(light: nat, on: bool)
    requires light < LIGHTS
    ensures var m := LightMessage(light, on);
      && m.IsControlChange() && m.GetChannel() == 0 && m.GetControllerNumber() == LightCc[light]
      && m.GetControllerValue() == if on then 127 else 0
  {
  }

  /** Lights map to distinct messages, so the log shows which light changed and how. */
  lemma LightMessageInjective(i: nat, j: nat, on: bool, on2: bool)
    requires i < LIGHTS && j < LIGHTS
    ensures LightMessage(i, on) == LightMessage(j, on2) <==> i == j && on == on2
  {
    LightCcDistinct();
  }

  // ---------------------------------------------------------------------------
  // Fliers

  /** `1 << c`: flier c moves one light every Speed(c) steps. */
  function Speed(c: nat): (r: nat)
    requires c < FLIER_COUNT
    ensures r == Pow2(c)
  {
    assert Pow2(1) == 2 && Pow2(2) == 4;
    if c == 0 then 1 else if c == 1 then 2 else 4
  }

  /** The light flier c shows. */
  function FlierLight(f: nat, c: nat): nat
    requires c < FLIER_COUNT
  {
    f / Speed(c)
  }

  /** A flier's count after a step: it restarts once its light reaches NORMAL_COUNT. */
  function NextFlier(f: nat, c: nat): nat
    requires c < FLIER_COUNT
  {
    if FlierLight(f, c) >= NORMAL_COUNT then 0 else f + 1
  }

  /** The count of flier c after `k` steps from 0. */
  function FlierAfter(c: nat, k: nat): nat
    requires c < FLIER_COUNT
  {
    if k == 0 then 0 else NextFlier(FlierAfter(c, k - 1), c)
  }

  /**
   * Flier c counts up one per step, so its light moves on every Speed(c)
   * steps; on the step after it reaches light NORMAL_COUNT it restarts.
   */
  lemma {:induction false} FlierCycle(c: nat, k: nat)
    requires c < FLIER_COUNT
    ensures k <= NORMAL_COUNT * Speed(c) ==> FlierAfter(c, k) == k
    ensures k == NORMAL_COUNT * Speed(c) + 1 ==> FlierAfter(c, k) == 0
  {
    if 0 < k <= NORMAL_COUNT * Speed(c) + 1 {
      FlierCycle(c, k - 1);
      FlierLightRange(k - 1, c);
    }
  }

  /** Below NORMAL_COUNT * Speed(c) the light is a normal one; at that count it is NORMAL_COUNT. */
  lemma FlierLightRange(f: nat, c: nat)
    requires c < FLIER_COUNT
    ensures f < NORMAL_COUNT * Speed(c) ==> FlierLight(f, c) < NORMAL_COUNT
    ensures f == NORMAL_COUNT * Speed(c) ==> FlierLight(f, c) == NORMAL_COUNT
  {
    if c == 0 {
      assert FlierLight(f, c) == f;
    } else if c == 1 {
      assert FlierLight(f, c) == f / 2;
    } else {
      assert FlierLight(f, c) == f / 4;
    }
  }

  /** A flier that stays within its range keeps its light inside the normal lights. */
  lemma FlierBounds(f: nat, c: nat)
    requires c < FLIER_COUNT && f <= NORMAL_COUNT * Speed(c)
    ensures FlierLight(f, c) <= NORMAL_COUNT
    ensures NextFlier(f, c) <= NORMAL_COUNT * Speed(c)
  {
    FlierLightRange(f, c);
  }

  /** Flier c, after counting from `f`, asks for a special. */
  predicate Launches(f: nat, c: nat)
    requires c < FLIER_COUNT
  {
    var e := FlierLight(f, c);
    e != 0 && e % 8 == 0 && (f + 1) % Speed(c) == 0
  }

  ghost predicate AnyLaunch(fliers: seq<nat>, n: nat)
    requires n <= |fliers| && n <= FLIER_COUNT
  {
    exists c :: 0 <= c < n && Launches(fliers[c], c)
  }

  /** The number of active fliers after a step: one more when the last one restarted. */
  function NextFliersActive(fliers: seq<nat>, active: nat): (r: nat)
    requires 1 <= active <= |fliers| && active <= FLIER_COUNT
    ensures active <= r <= active + 1
  {
    if active < FLIER_COUNT && FlierLight(fliers[active - 1], active - 1) >= NORMAL_COUNT then active + 1 else active
  }

  // ---------------------------------------------------------------------------
  // Specials

  /** The active specials: below SPECIAL_COUNT and strictly decreasing, oldest first. */
  ghost predicate SpecialsOk(s: seq<nat>)
  {
    && |s| <= SPECIAL_COUNT
    && (forall i :: 0 <= i < |s| ==> s[i] < SPECIAL_COUNT)
    && Decreasing(s)
  }

  ghost predicate Decreasing(s: seq<nat>)
  {
    forall i, j :: 0 <= i < j < |s| ==> s[i] > s[j]
  }

  function Advanced(s: seq<nat>): (r: seq<nat>)
    ensures |r| == |s| && forall i :: 0 <= i < |s| ==> r[i] == s[i] + 1
  {
    seq(|s|, i requires 0 <= i < |s| => s[i] + 1)
  }

  /** `completeCount`: how many specials have run off the end. */
  function CountComplete(s: seq<nat>): (r: nat)
    ensures r <= |s|
  {
    if |s| == 0 then 0 else CountComplete(s[..|s| - 1]) + (if s[|s| - 1] >= SPECIAL_COUNT then 1 else 0)
  }

  /** The specials that carry on after a step: advanced, with the completed ones dropped from the front. */
  function Survivors(s: seq<nat>): seq<nat>
  {
    var a := Advanced(s);
    a[CountComplete(a)..]
  }

  /** A launch appends a special at 0 when there is room and the newest special has moved off 0. */
  function Launched(s: seq<nat>, launch: bool): (r: seq<nat>)
    ensures r == s || r == s + [0]
  {
    if launch && |s| < SPECIAL_COUNT && (|s| == 0 || s[|s| - 1] != 0) then s + [0] else s
  }

  lemma {:induction false} CountCompleteAtMostFront(s: seq<nat>)
    requires (forall i, j :: 0 <= i < j < |s| ==> s[i] > s[j])
    requires forall i :: 0 <= i < |s| ==> s[i] <= SPECIAL_COUNT
    ensures CountComplete(s) <= 1
    ensures CountComplete(s) == 1 <==> |s| > 0 && s[0] == SPECIAL_COUNT
  {
    if |s| > 0 {
      var init := s[..|s| - 1];
      CountCompleteAtMostFront(init);
      if |s| > 1 {
        assert s[0] == init[0];
        assert s[|s| - 1] < s[0];
      }
    }
  }

  /**
   * A step leaves the specials well formed: the one that ran off the end
   * is the oldest, it is the only one, and it is removed from the front.
   */
  lemma SurvivorsOk(s: seq<nat>)
    requires SpecialsOk(s)
    ensures SpecialsOk(Survivors(s))
    ensures CountComplete(Advanced(s)) <= 1
    ensures |Survivors(s)| == |s| - CountComplete(Advanced(s))
    ensures forall i :: 0 <= i < |Survivors(s)| ==> Survivors(s)[i] == s[i + |s| - |Survivors(s)|] + 1
  {
    SurvivorsWellFormed(s);
  }

  /** The specials after a step are well formed again. */
  lemma SurvivorsWellFormed(s: seq<nat>)
    requires SpecialsOk(s)
    ensures SpecialsOk(Survivors(s)) && CountComplete(Advanced(s)) <= 1
  {
    var a := Advanced(s);
    AdvancedDecreasing(s);
    CountCompleteAtMostFront(a);
    var k := CountComplete(a);
    DecreasingSlice(a, k);
    SurvivorsBelow(a, k);
  }

  /** Moving every special on keeps them in order and at most at SPECIAL_COUNT. */
  lemma AdvancedDecreasing(s: seq<nat>)
    requires SpecialsOk(s)
    ensures Decreasing(Advanced(s))
    ensures forall i :: 0 <= i < |s| ==> Advanced(s)[i] <= SPECIAL_COUNT
  {
  }

  lemma DecreasingSlice(a: seq<nat>, k: nat)
    requires Decreasing(a) && k <= |a|
    ensures Decreasing(a[k..])
  {
    forall i, j | 0 <= i < j < |a| - k
      ensures a[k..][i] > a[k..][j]
    {
      assert a[k..][i] == a[i + k] && a[k..][j] == a[j + k];
    }
  }

  /** Once the one that ran off the end is dropped, every special is below SPECIAL_COUNT. */
  lemma SurvivorsBelow(a: seq<nat>, k: nat)
    requires Decreasing(a) && forall i :: 0 <= i < |a| ==> a[i] <= SPECIAL_COUNT
    requires k <= 1 && (k == 1 <==> |a| > 0 && a[0] == SPECIAL_COUNT)
    ensures forall i :: 0 <= i < |a| - k ==> a[k..][i] < SPECIAL_COUNT
  {
    forall i | 0 <= i < |a| - k
      ensures a[k..][i] < SPECIAL_COUNT
    {
      assert a[k..][i] == a[i + k];
      if i + k > 0 {
        assert a[i + k] < a[0];
      }
    }
  }

  lemma LaunchedOk(s: seq<nat>, launch: bool)
    requires SpecialsOk(s)
    ensures SpecialsOk(Launched(s, launch))
  {
  }

  // ---------------------------------------------------------------------------
  // Lights and the host calls of a step

  /** The lights the specials turn on. */
  function SpecialLights(s: seq<nat>): set<nat>
  {
    set c | 0 <= c < |s| :: s[c] + NORMAL_COUNT
  }

  /** The lights the first `n` fliers turn on. */
  function FlierLights(fliers: seq<nat>, n: nat): set<nat>
    requires n <= |fliers| && n <= FLIER_COUNT
  {
    set c | 0 <= c < n :: FlierLight(fliers[c], c)
  }

  /**
   * The calls for light c: `lightSet` if it changed, and its parameter if
   * it is mirrored. `table` is the light-to-controller table and `ids`
   * the mirrored parameters' ids, LightCc and ParameterIds for this patch;
   * the lemmas below hold for any tables without repeats.
   */
  function LightCalls(table: seq<byte>, ids: seq<ParameterId>, c: nat, wasOn: bool, nowOn: bool): seq<HostCall>
    requires c < |table| && c < LIGHTS && (c < MIRRORED ==> c < |ids|)
  {
    (if wasOn != nowOn then [SendMidi(ControlMessage(table[c], nowOn))] else [])
    + (if c < MIRRORED then [SetParameterValue(ids[c], if nowOn then 1.0 else 0.0)] else [])
  }

  /** The calls for lights 0..n-1 of a step, light by light. */
  function DiffCalls(table: seq<byte>, ids: seq<ParameterId>, was: seq<bool>, now: seq<bool>, n: nat): seq<HostCall>
    requires n <= |was| && n <= |now| && n <= |table| && n <= LIGHTS && MIRRORED <= |ids|
  {
    if n == 0 then [] else DiffCalls(table, ids, was, now, n - 1) + LightCalls(table, ids, n - 1, was[n - 1], now[n - 1])
  }

  /** The calls for one light mention no other light. */
  lemma LightCallsOnlyFor(table: seq<byte>, ids: seq<ParameterId>, c: nat, wasOn: bool, nowOn: bool, j: nat, on: bool, v: real)
    requires MIRRORED <= |ids| && c < |table| && j < |table| && c < LIGHTS && j < LIGHTS
    requires table[j] != table[c] && (j < MIRRORED && c < MIRRORED ==> ids[j] != ids[c])
    ensures SendMidi(ControlMessage(table[j], on)) !in LightCalls(table, ids, c, wasOn, nowOn)
    ensures j < MIRRORED ==> SetParameterValue(ids[j], v) !in LightCalls(table, ids, c, wasOn, nowOn)
  {
  }

  /** Two different lights have different controller numbers and, if mirrored, different parameters. */
  lemma DistinctAt(table: seq<byte>, ids: seq<ParameterId>, c: nat, j: nat)
    requires Injective(table) && IdsInjective(ids) && MIRRORED <= |ids| && c < |table| && j < |table| && j != c
    ensures table[j] != table[c] && (j < MIRRORED && c < MIRRORED ==> ids[j] != ids[c])
  {
    if j < c {
      assert table[j] != table[c];
    } else {
      assert table[c] != table[j];
    }
    if j < MIRRORED && c < MIRRORED {
      if j < c {
        assert ids[j] != ids[c];
      } else {
        assert ids[c] != ids[j];
      }
    }
  }

  ghost predicate IdsInjective(ids: seq<ParameterId>)
  {
    forall i, j :: 0 <= i < j < |ids| ==> ids[i] != ids[j]
  }

  lemma ParameterIdsDistinct()
    ensures |ParameterIds| == MIRRORED && IdsInjective(ParameterIds)
  {
    forall i, j | 0 <= i < j < MIRRORED
      ensures ParameterIds[i] != ParameterIds[j]
    {
      if i == 0 {} else if i == 1 {} else if i == 2 {} else if i == 3 {} else if i == 4 {}
      else if i == 5 {} else if i == 6 {} else if i == 7 {} else if i == 8 {} else if i == 9 {}
      else if i == 10 {} else if i == 11 {} else if i == 12 {} else if i == 13 {} else {}
    }
  }

  /** Both tables of this patch are free of repeats. */
  lemma TablesInjective()
    ensures |LightCc| == LIGHTS && Injective(LightCc)
    ensures |ParameterIds| == MIRRORED && IdsInjective(ParameterIds)
  {
    LightCcDistinct();
    ParameterIdsDistinct();
  }

  lemma NotInConcat<T>(x: T, a: seq<T>, b: seq<T>)
    requires x !in a && x !in b
    ensures x !in a + b
  {
  }

  lemma {:induction false} DiffCallsBelow(table: seq<byte>, ids: seq<ParameterId>, was: seq<bool>, now: seq<bool>, n: nat, j: nat, on: bool, v: real)
    requires Injective(table) && IdsInjective(ids) && MIRRORED <= |ids| && n <= |was| && n <= |now| && n <= j < |table| && j < LIGHTS
    ensures SendMidi(ControlMessage(table[j], on)) !in DiffCalls(table, ids, was, now, n)
    ensures j < MIRRORED ==> SetParameterValue(ids[j], v) !in DiffCalls(table, ids, was, now, n)
  {
    if n > 0 {
      var c := n - 1;
      var head := DiffCalls(table, ids, was, now, c);
      var last := LightCalls(table, ids, c, was[c], now[c]);
      assert DiffCalls(table, ids, was, now, n) == head + last;
      DiffCallsBelow(table, ids, was, now, c, j, on, v);
      DistinctAt(table, ids, c, j);
      LightCallsOnlyFor(table, ids, c, was[c], now[c], j, on, v);
      NotInConcat(SendMidi(ControlMessage(table[j], on)), head, last);
      if j < MIRRORED {
        NotInConcat(SetParameterValue(ids[j], v), head, last);
      }
    }
  }

  lemma InConcat<T>(x: T, a: seq<T>, b: seq<T>)
    ensures x in a + b <==> x in a || x in b
  {
  }

  /** A light's own calls send its new state exactly when it changed, and never its old state. */
  lemma LightCallsOwn(table: seq<byte>, ids: seq<ParameterId>, c: nat, wasOn: bool, nowOn: bool)
    requires c < |table| && c < LIGHTS && (c < MIRRORED ==> c < |ids|)
    ensures SendMidi(ControlMessage(table[c], nowOn)) in LightCalls(table, ids, c, wasOn, nowOn) <==> wasOn != nowOn
    ensures SendMidi(ControlMessage(table[c], !nowOn)) !in LightCalls(table, ids, c, wasOn, nowOn)
    ensures c < MIRRORED ==> SetParameterValue(ids[c], if nowOn then 1.0 else 0.0) in LightCalls(table, ids, c, wasOn, nowOn)
    ensures c < MIRRORED ==> SetParameterValue(ids[c], if nowOn then 0.0 else 1.0) !in LightCalls(table, ids, c, wasOn, nowOn)
  {
    assert ControlMessage(table[c], nowOn) != ControlMessage(table[c], !nowOn);
  }

  /**
   * The log of a step sends light j's new state exactly when light j
   * changed, and never sends its old state.
   */
  lemma {:induction false} DiffSendsChangedLights(table: seq<byte>, ids: seq<ParameterId>, was: seq<bool>, now: seq<bool>, n: nat, j: nat)
    requires Injective(table) && IdsInjective(ids) && MIRRORED <= |ids| && n <= |was| && n <= |now| && n <= |table| && n <= LIGHTS && j < n
    ensures SendMidi(ControlMessage(table[j], now[j])) in DiffCalls(table, ids, was, now, n) <==> was[j] != now[j]
    ensures SendMidi(ControlMessage(table[j], !now[j])) !in DiffCalls(table, ids, was, now, n)
  {
    var c := n - 1;
    var head := DiffCalls(table, ids, was, now, c);
    var last := LightCalls(table, ids, c, was[c], now[c]);
    assert DiffCalls(table, ids, was, now, n) == head + last;
    var sent := SendMidi(ControlMessage(table[j], now[j]));
    var stale := SendMidi(ControlMessage(table[j], !now[j]));
    InConcat(sent, head, last);
    InConcat(stale, head, last);
    if j < c {
      DiffSendsChangedLights(table, ids, was, now, c, j);
      DistinctAt(table, ids, c, j);
      LightCallsOnlyFor(table, ids, c, was[c], now[c], j, now[j], 0.0);
      LightCallsOnlyFor(table, ids, c, was[c], now[c], j, !now[j], 0.0);
    } else {
      DiffCallsBelow(table, ids, was, now, c, j, now[j], 0.0);
      DiffCallsBelow(table, ids, was, now, c, j, !now[j], 0.0);
      LightCallsOwn(table, ids, c, was[c], now[c]);
    }
  }

  /** Each mirrored light's parameter is set to 1.0 when it is on and 0.0 when it is off, and to nothing else. */
  lemma {:induction false} DiffMirrorsParameters(table: seq<byte>, ids: seq<ParameterId>, was: seq<bool>, now: seq<bool>, n: nat, j: nat)
    requires Injective(table) && IdsInjective(ids) && MIRRORED <= |ids| && n <= |was| && n <= |now| && n <= |table| && n <= LIGHTS && j < n && j < MIRRORED
    ensures SetParameterValue(ids[j], if now[j] then 1.0 else 0.0) in DiffCalls(table, ids, was, now, n)
    ensures SetParameterValue(ids[j], if now[j] then 0.0 else 1.0) !in DiffCalls(table, ids, was, now, n)
  {
    var c := n - 1;
    var head := DiffCalls(table, ids, was, now, c);
    var last := LightCalls(table, ids, c, was[c], now[c]);
    assert DiffCalls(table, ids, was, now, n) == head + last;
    var mirrored := SetParameterValue(ids[j], if now[j] then 1.0 else 0.0);
    var stale := SetParameterValue(ids[j], if now[j] then 0.0 else 1.0);
    InConcat(mirrored, head, last);
    InConcat(stale, head, last);
    if j < c {
      DiffMirrorsParameters(table, ids, was, now, c, j);
      DistinctAt(table, ids, c, j);
      LightCallsOnlyFor(table, ids, c, was[c], now[c], j, false, if now[j] then 0.0 else 1.0);
    } else {
      DiffCallsBelow(table, ids, was, now, c, j, false, if now[j] then 0.0 else 1.0);
      LightCallsOwn(table, ids, c, was[c], now[c]);
    }
  }

  /** For this patch's table: a step's log sends a light's message exactly when it changed, and mirrors the first 16. */
  lemma StepLogIsDiff(was: seq<bool>, now: seq<bool>, j: nat)
    requires |was| == LIGHTS && |now| == LIGHTS && j < LIGHTS
    ensures SendMidi(LightMessage(j, now[j])) in DiffCalls(LightCc, ParameterIds, was, now, LIGHTS) <==> was[j] != now[j]
    ensures SendMidi(LightMessage(j, !now[j])) !in DiffCalls(LightCc, ParameterIds, was, now, LIGHTS)
    ensures j < MIRRORED ==> SetParameterValue(ParameterIds[j], if now[j] then 1.0 else 0.0) in DiffCalls(LightCc, ParameterIds, was, now, LIGHTS)
  {
    LightCcDistinct();
    ParameterIdsDistinct();
    DiffSendsChangedLights(LightCc, ParameterIds, was, now, LIGHTS, j);
    if j < MIRRORED {
      DiffMirrorsParameters(LightCc, ParameterIds, was, now, LIGHTS, j);
    }
  }

  /** `scratch`: "L" and two decimal digits, then ">". */
  function ParameterName(c: nat): string
    requires c < 100
  {
    ['L', ('0' as int + c / 10) as char, ('0' as int + c % 10) as char, '>']
  }

  /** The constructor's first loop: parameters `ids[0..n)` registered in order, named L00>, L01>, ... */
  function RegisterCalls(ids: seq<ParameterId>, n: nat): seq<HostCall>
    requires n <= |ids| && n <= MIRRORED
  {
    seq(n, j requires 0 <= j < n => RegisterParameter(ids[j], ParameterName(j)))
  }

  /** The constructor's second loop: lights 0..n-1 turned off in light order. */
  function OffCalls(table: seq<byte>, n: nat): seq<HostCall>
    requires n <= |table|
  {
    seq(n, j requires 0 <= j < n => SendMidi(ControlMessage(table[j], false)))
  }

  /** Different parameters get different names: the two digits spell the index. */
  lemma ParameterNamesDistinct(i: nat, j: nat)
    requires i < 100 && j < 100
    ensures ParameterName(i) == ParameterName(j) <==> i == j
  {
    if ParameterName(i) == ParameterName(j) {
      assert ParameterName(i)[1] == ParameterName(j)[1] && ParameterName(i)[2] == ParameterName(j)[2];
      assert i / 10 == j / 10 && i % 10 == j % 10;
    }
  }

  // ---------------------------------------------------------------------------
  // Facts the step's loops use

  lemma CountCompleteSnoc(s: seq<nat>, c: nat)
    requires c < |s|
    ensures CountComplete(s[..c + 1]) == CountComplete(s[..c]) + if s[c] >= SPECIAL_COUNT then 1 else 0
  {
    assert s[..c + 1][..c] == s[..c];
  }

  lemma SpecialLightsSnoc(s: seq<nat>, c: nat)
    requires c < |s|
    ensures SpecialLights(s[..c + 1]) == SpecialLights(s[..c]) + {s[c] + NORMAL_COUNT}
  {
    var a, b := s[..c + 1], s[..c];
    assert a[c] == s[c];
    forall x | x in SpecialLights(a)
      ensures x in SpecialLights(b) + {s[c] + NORMAL_COUNT}
    {
      var k :| 0 <= k < |a| && x == a[k] + NORMAL_COUNT;
      if k < c {
        assert b[k] == a[k];
      }
    }
    forall x | x in SpecialLights(b)
      ensures x in SpecialLights(a)
    {
      var k :| 0 <= k < |b| && x == b[k] + NORMAL_COUNT;
      assert a[k] == b[k];
    }
  }

  lemma FlierLightsSnoc(fliers: seq<nat>, c: nat)
    requires c < |fliers| && c < FLIER_COUNT
    ensures FlierLights(fliers, c + 1) == FlierLights(fliers, c) + {FlierLight(fliers[c], c)}
  {
  }

  lemma AnyLaunchSnoc(fliers: seq<nat>, c: nat)
    requires c < |fliers| && c < FLIER_COUNT
    ensures AnyLaunch(fliers, c + 1) <==> AnyLaunch(fliers, c) || Launches(fliers[c], c)
  {
  }

  /** The first `c` specials have moved on one light and the rest are as in `before`. */
  ghost predicate AdvancedTo(now: seq<nat>, before: seq<nat>, c: nat)
  {
    && |now| == |before| && c <= |now|
    && (forall k :: 0 <= k < c ==> now[k] == before[k] + 1)
    && (forall k :: c <= k < |now| ==> now[k] == before[k])
  }

  lemma AdvancedToStep(pre: seq<nat>, now: seq<nat>, before: seq<nat>, c: nat)
    requires AdvancedTo(pre, before, c) && c < |pre|
    requires now == pre[c := pre[c] + 1]
    ensures AdvancedTo(now, before, c + 1)
  {
  }

  lemma AdvancedToAll(now: seq<nat>, before: seq<nat>)
    requires AdvancedTo(now, before, |before|)
    ensures now == Advanced(before)
  {
  }

  /** The first `c` fliers have taken their step and the rest are as in `before`. */
  ghost predicate FliersAdvanced(now: seq<nat>, before: seq<nat>, c: nat)
  {
    && |now| == FLIER_COUNT && |before| == FLIER_COUNT && c <= FLIER_COUNT
    && (forall k :: 0 <= k < c ==> now[k] == NextFlier(before[k], k))
    && (forall k :: c <= k < FLIER_COUNT ==> now[k] == before[k])
  }

  lemma FliersAdvancedStep(pre: seq<nat>, now: seq<nat>, before: seq<nat>, c: nat)
    requires FliersAdvanced(pre, before, c) && c < FLIER_COUNT
    requires now == pre[c := NextFlier(pre[c], c)]
    ensures FliersAdvanced(now, before, c + 1)
  {
  }

  lemma FliersAdvancedAll(now: seq<nat>, before: seq<nat>, n: nat)
    requires FliersAdvanced(now, before, n)
    ensures forall k :: 0 <= k < FLIER_COUNT ==> now[k] == if k < n then NextFlier(before[k], k) else before[k]
  {
  }

  /** A second launch request in the same step adds nothing: the newest special is then at 0. */
  lemma LaunchedTwice(s: seq<nat>, p: bool, q: bool)
    ensures Launched(Launched(s, p), q) == Launched(s, p || q)
  {
  }

  /** Light j is on in `now` exactly when it was on in `before` or is in `lit`. */
  ghost predicate LitExactly(now: seq<bool>, before: seq<bool>, lit: set<nat>)
  {
    && |now| == LIGHTS && |before| == LIGHTS
    && forall j :: 0 <= j < LIGHTS ==> (now[j] <==> before[j] || j in lit)
  }

  lemma LitMore(now: seq<bool>, before: seq<bool>, lit: set<nat>, k: nat)
    requires LitExactly(now, before, lit) && k < LIGHTS
    ensures LitExactly(now[k := true], before, lit + {k})
  {
  }

  lemma LitCompose(a: seq<bool>, b: seq<bool>, c: seq<bool>, x: set<nat>, y: set<nat>)
    requires LitExactly(b, a, x) && LitExactly(c, b, y)
    ensures LitExactly(c, a, x + y)
  {
  }

  /** Exactly the lights in `lit` are on. */
  ghost predicate LitOnly(now: seq<bool>, lit: set<nat>)
  {
    |now| == LIGHTS && forall j :: 0 <= j < LIGHTS ==> (now[j] <==> j in lit)
  }

  /** Lights that were all off, then had exactly `y` turned on, show exactly `y`. */
  lemma LitFromDark(dark: seq<bool>, now: seq<bool>, y: set<nat>)
    requires |dark| == LIGHTS && (forall j :: 0 <= j < LIGHTS ==> !dark[j]) && LitExactly(now, dark, y)
    ensures LitOnly(now, y)
  {
  }

  lemma LitOnlyMore(b: seq<bool>, c: seq<bool>, x: set<nat>, y: set<nat>)
    requires LitOnly(b, x) && LitExactly(c, b, y)
    ensures LitOnly(c, x + y)
  {
  }

  class NanoKontrolTestPatch {
    const fliers: array<nat>
    var fliersActiveCount: nat
    const specials: array<nat>
    var specialsActiveCount: nat
    const lightOn: array<bool>
    /** The `lightCC` table and the ids of the mirrored parameters. */
    const lightCc: seq<byte>
    const parameterIds: seq<ParameterId>
    var hostLog: seq<HostCall>

    ghost predicate Valid()
      reads this, fliers, specials, lightOn
    {
      && fliers.Length == FLIER_COUNT && specials.Length == SPECIAL_COUNT && lightOn.Length == LIGHTS
      && fliers != specials
      && |lightCc| == LIGHTS && Injective(lightCc)
      && |parameterIds| == MIRRORED && IdsInjective(parameterIds)
      && 1 <= fliersActiveCount <= FLIER_COUNT
      && (forall c :: 0 <= c < fliersActiveCount ==> fliers[c] <= NORMAL_COUNT * Speed(c))
      && (forall c :: fliersActiveCount <= c < FLIER_COUNT ==> fliers[c] == 0)
      && specialsActiveCount <= SPECIAL_COUNT
      && SpecialsOk(specials[..specialsActiveCount])
    }

    /** The constructor registers parameters 0..15 and turns every light off. */
    constructor()
      ensures Valid() && fresh(fliers) && fresh(specials) && fresh(lightOn)
      ensures lightCc == LightCc && parameterIds == ParameterIds
      ensures fliersActiveCount == 1 && specialsActiveCount == 0
      ensures fliers[..] == [0, 0, 0] && forall j :: 0 <= j < LIGHTS ==> !lightOn[j]
      ensures hostLog == RegisterCalls(parameterIds, MIRRORED) + OffCalls(lightCc, LIGHTS)
    {
      fliersActiveCount := 1;
      specialsActiveCount := 0;
      fliers := new nat[FLIER_COUNT](_ => 0);
      specials := new nat[SPECIAL_COUNT](_ => 0);
      lightOn := new bool[LIGHTS](_ => false);
      TablesInjective();
      lightCc := LightCc;
      parameterIds := ParameterIds;
      var log := RegisterAll(ParameterIds);
      hostLog := log;
      new;
      assert fliers[..] == [0, 0, 0];
      TurnAllOff();
    }

    /** The `lightSet` calls of the constructor. */
    method TurnAllOff()
      requires |lightCc| == LIGHTS
      modifies this
      ensures hostLog == old(hostLog) + OffCalls(lightCc, LIGHTS)
      ensures fliersActiveCount == old(fliersActiveCount) && specialsActiveCount == old(specialsActiveCount)
    {
      var c := 0;
      while c < LIGHTS
        invariant 0 <= c <= LIGHTS && hostLog == old(hostLog) + OffCalls(lightCc, c)
        invariant fliersActiveCount == old(fliersActiveCount) && specialsActiveCount == old(specialsActiveCount)
      {
        LightSet(c, false);
        assert OffCalls(lightCc, c + 1) == OffCalls(lightCc, c) + [SendMidi(ControlMessage(lightCc[c], false))];
        c := c + 1;
      }
    }

    /** `lightSet`: send the light's Control Change. */
    method LightSet(light: nat, on: bool)
      requires light < LIGHTS && |lightCc| == LIGHTS
      modifies this
      ensures hostLog == old(hostLog) + [SendMidi(ControlMessage(lightCc[light], on))]
      ensures fliersActiveCount == old(fliersActiveCount) && specialsActiveCount == old(specialsActiveCount)
    {
      hostLog := hostLog + [SendMidi(ControlMessage(lightCc[light], on))];
    }

    /** `BZERO(lightOn)` */
    method ClearLights()
      requires lightOn.Length == LIGHTS
      modifies lightOn
      ensures forall j :: 0 <= j < LIGHTS ==> !lightOn[j]
    {
      var j := 0;
      while j < LIGHTS
        invariant 0 <= j <= LIGHTS && forall k :: 0 <= k < j ==> !lightOn[k]
      {
        lightOn[j] := false;
        j := j + 1;
      }
    }

    /** The specials loop: light each special, advance it, and count those that ran off the end. */
    method MarkSpecials() returns (completeCount: nat)
      requires specials.Length == SPECIAL_COUNT && lightOn.Length == LIGHTS && specialsActiveCount <= SPECIAL_COUNT
      requires forall i :: 0 <= i < specialsActiveCount ==> specials[i] < SPECIAL_COUNT
      modifies specials, lightOn
      ensures specials[..specialsActiveCount] == Advanced(old(specials[..specialsActiveCount]))
      ensures completeCount == CountComplete(Advanced(old(specials[..specialsActiveCount])))
      ensures LitExactly(lightOn[..], old(lightOn[..]), SpecialLights(old(specials[..specialsActiveCount])))
    {
      ghost var sp0 := specials[..specialsActiveCount];
      ghost var lo0 := lightOn[..];
      var n := specialsActiveCount;
      completeCount := 0;
      var c := 0;
      while c < n
        invariant 0 <= c <= n
        invariant MarkedUpTo(sp0, lo0, n, c, completeCount)
      {
        completeCount := MarkOne(sp0, lo0, n, c, completeCount);
        c := c + 1;
      }
      AdvancedToAll(specials[..n], sp0);
      assert Advanced(sp0)[..n] == Advanced(sp0);
      assert sp0[..n] == sp0;
    }

    /** The specials loop after `c` passes, from specials `sp0` and lights `lo0`. */
    ghost predicate MarkedUpTo(sp0: seq<nat>, lo0: seq<bool>, n: nat, c: nat, completeCount: nat)
      reads specials, lightOn
    {
      && specials.Length == SPECIAL_COUNT && lightOn.Length == LIGHTS
      && |sp0| == n <= SPECIAL_COUNT && c <= n
      && (forall i :: 0 <= i < n ==> sp0[i] < SPECIAL_COUNT)
      && AdvancedTo(specials[..n], sp0, c)
      && completeCount == CountComplete(Advanced(sp0)[..c])
      && LitExactly(lightOn[..], lo0, SpecialLights(sp0[..c]))
    }

    /** One pass of the specials loop: light special c's light, move it on, count it if it ran off the end. */
    method MarkOne(ghost sp0: seq<nat>, ghost lo0: seq<bool>, n: nat, c: nat, completeCount: nat) returns (count: nat)
      requires MarkedUpTo(sp0, lo0, n, c, completeCount) && c < n
      modifies specials, lightOn
      ensures MarkedUpTo(sp0, lo0, n, c + 1, count)
    {
      SpecialLightsSnoc(sp0, c);
      CountCompleteSnoc(Advanced(sp0), c);
      ghost var pre := specials[..n];
      assert specials[c] == sp0[c];
      LitMore(lightOn[..], lo0, SpecialLights(sp0[..c]), sp0[c] + NORMAL_COUNT);
      lightOn[specials[c] + NORMAL_COUNT] := true;
      specials[c] := specials[c] + 1;
      assert specials[..n] == pre[c := pre[c] + 1];
      AdvancedToStep(pre, specials[..n], sp0, c);
      count := completeCount;
      if specials[c] >= SPECIAL_COUNT {
        count := count + 1;
      }
    }

    /** Move the specials after the completed ones to the front. */
    method DropCompleted(completeCount: nat)
      requires specials.Length == SPECIAL_COUNT && specialsActiveCount + completeCount <= SPECIAL_COUNT
      modifies specials
      ensures specials[..specialsActiveCount] == old(specials[completeCount..completeCount + specialsActiveCount])
    {
      ghost var a0 := specials[..];
      var n := specialsActiveCount;
      var c := 0;
      while c < n
        invariant 0 <= c <= n && specials.Length == |a0|
        invariant forall k :: 0 <= k < c ==> specials[k] == a0[k + completeCount]
        invariant forall k :: c <= k < |a0| ==> specials[k] == a0[k]
      {
        specials[c] := specials[c + completeCount];
        c := c + 1;
      }
      assert forall k :: 0 <= k < n ==> specials[..n][k] == a0[completeCount..completeCount + n][k];
    }

    /** A flier's launch request: a new special at 0, if there is room and the newest has moved on. */
    method LaunchSpecial()
      requires specials.Length == SPECIAL_COUNT && specialsActiveCount <= SPECIAL_COUNT
      modifies this, specials
      ensures specialsActiveCount <= SPECIAL_COUNT
      ensures specials[..specialsActiveCount] == Launched(old(specials[..specialsActiveCount]), true)
      ensures fliersActiveCount == old(fliersActiveCount) && hostLog == old(hostLog)
    {
      ghost var s1 := specials[..specialsActiveCount];
      if specialsActiveCount < SPECIAL_COUNT && (specialsActiveCount == 0 || specials[specialsActiveCount - 1] != 0) {
        specials[specialsActiveCount] := 0;
        specialsActiveCount := specialsActiveCount + 1;
        assert specials[..specialsActiveCount] == s1 + [0];
      }
    }

    /** One pass of the fliers loop, for flier c of the `activeWas` active at the start. */
    method FlierStep(c: nat, activeWas: nat)
      requires fliers.Length == FLIER_COUNT && specials.Length == SPECIAL_COUNT && lightOn.Length == LIGHTS
      requires fliers != specials
      requires c < activeWas <= FLIER_COUNT && fliersActiveCount == activeWas && specialsActiveCount <= SPECIAL_COUNT
      requires fliers[c] <= NORMAL_COUNT * Speed(c)
      modifies this, fliers, specials, lightOn
      ensures fliers[..] == old(fliers[..])[c := NextFlier(old(fliers[c]), c)]
      ensures fliersActiveCount == if c == activeWas - 1 then NextFliersActive(old(fliers[..]), activeWas) else activeWas
      ensures specialsActiveCount <= SPECIAL_COUNT
      ensures specials[..specialsActiveCount] == Launched(old(specials[..specialsActiveCount]), Launches(old(fliers[c]), c))
      ensures lightOn[..] == old(lightOn[..])[FlierLight(old(fliers[c]), c) := true]
      ensures hostLog == old(hostLog)
    {
      FlierBounds(fliers[c], c);
      var speed := Speed(c);
      var effectiveFlier := fliers[c] / speed;
      lightOn[effectiveFlier] := true;
      fliers[c] := fliers[c] + 1;
      if effectiveFlier != 0 && effectiveFlier % 8 == 0 && fliers[c] % speed == 0 {
        LaunchSpecial();
      }
      if effectiveFlier >= NORMAL_COUNT {
        fliers[c] := 0;
        if fliersActiveCount < FLIER_COUNT && c == activeWas - 1 {
          fliersActiveCount := fliersActiveCount + 1;
        }
      }
    }

    /** The fliers loop: light each flier, count it on, launch a special, restart it, add a flier. */
    method RunFliers()
      requires fliers.Length == FLIER_COUNT && specials.Length == SPECIAL_COUNT && lightOn.Length == LIGHTS
      requires fliers != specials
      requires 1 <= fliersActiveCount <= FLIER_COUNT && specialsActiveCount <= SPECIAL_COUNT
      requires forall c :: 0 <= c < fliersActiveCount ==> fliers[c] <= NORMAL_COUNT * Speed(c)
      modifies this, fliers, specials, lightOn
      ensures forall c :: 0 <= c < FLIER_COUNT ==>
        fliers[c] == if c < old(fliersActiveCount) then NextFlier(old(fliers[c]), c) else old(fliers[c])
      ensures fliersActiveCount == NextFliersActive(old(fliers[..]), old(fliersActiveCount))
      ensures specialsActiveCount <= SPECIAL_COUNT
      ensures specials[..specialsActiveCount] ==
        Launched(old(specials[..specialsActiveCount]), AnyLaunch(old(fliers[..]), old(fliersActiveCount)))
      ensures LitExactly(lightOn[..], old(lightOn[..]), FlierLights(old(fliers[..]), old(fliersActiveCount)))
      ensures hostLog == old(hostLog)
    {
      ghost var fl0 := fliers[..];
      ghost var sp0 := specials[..specialsActiveCount];
      ghost var lo0 := lightOn[..];
      var activeWas := fliersActiveCount;
      var c := 0;
      while c < activeWas
        invariant 0 <= c <= activeWas
        invariant fliers.Length == FLIER_COUNT
        invariant FliersAdvanced(fliers[..], fl0, c)
        invariant fliersActiveCount == if c == activeWas then NextFliersActive(fl0, activeWas) else activeWas
        invariant specialsActiveCount <= SPECIAL_COUNT
        invariant specials[..specialsActiveCount] == Launched(sp0, AnyLaunch(fl0, c))
        invariant LitExactly(lightOn[..], lo0, FlierLights(fl0, c))
        invariant hostLog == old(hostLog)
      {
        FlierLightsSnoc(fl0, c);
        AnyLaunchSnoc(fl0, c);
        LaunchedTwice(sp0, AnyLaunch(fl0, c), Launches(fl0[c], c));
        LitMore(lightOn[..], lo0, FlierLights(fl0, c), FlierLight(fl0[c], c));
        ghost var pre := fliers[..];
        FlierStep(c, activeWas);
        FliersAdvancedStep(pre, fliers[..], fl0, c);
        c := c + 1;
      }
      FliersAdvancedAll(fliers[..], fl0, activeWas);
    }

    /** The last loop of a step: `lightSet` for each changed light, and the first 16 lights to parameters. */
    method EmitDiff(was: seq<bool>)
      requires lightOn.Length == LIGHTS && |was| == LIGHTS && |lightCc| == LIGHTS && |parameterIds| == MIRRORED
      modifies this
      ensures hostLog == old(hostLog) + DiffCalls(lightCc, parameterIds, was, lightOn[..], LIGHTS)
      ensures fliersActiveCount == old(fliersActiveCount) && specialsActiveCount == old(specialsActiveCount)
    {
      ghost var now := lightOn[..];
      var c := 0;
      while c < LIGHTS
        invariant 0 <= c <= LIGHTS
        invariant hostLog == old(hostLog) + DiffCalls(lightCc, parameterIds, was, now, c)
        invariant fliersActiveCount == old(fliersActiveCount) && specialsActiveCount == old(specialsActiveCount)
      {
        EmitLight(c, was[c]);
        assert DiffCalls(lightCc, parameterIds, was, now, c + 1)
          == DiffCalls(lightCc, parameterIds, was, now, c) + LightCalls(lightCc, parameterIds, c, was[c], now[c]);
        c := c + 1;
      }
    }

    /** One pass of the last loop: `lightSet` if light c changed, and its parameter if it is mirrored. */
    method EmitLight(c: nat, wasOn: bool)
      requires lightOn.Length == LIGHTS && c < LIGHTS && |lightCc| == LIGHTS && |parameterIds| == MIRRORED
      modifies this
      ensures hostLog == old(hostLog) + LightCalls(lightCc, parameterIds, c, wasOn, lightOn[c])
      ensures fliersActiveCount == old(fliersActiveCount) && specialsActiveCount == old(specialsActiveCount)
    {
      if lightOn[c] != wasOn {
        LightSet(c, lightOn[c]);
      }
      if c < MIRRORED {
        hostLog := hostLog + [SetParameterValue(parameterIds[c], if lightOn[c] then 1.0 else 0.0)];
      }
    }

    /** The first half of a step: clear the lights, light and advance the specials, drop the completed ones. */
    method RunSpecials()
      requires specials.Length == SPECIAL_COUNT && lightOn.Length == LIGHTS
      requires specialsActiveCount <= SPECIAL_COUNT && SpecialsOk(specials[..specialsActiveCount])
      modifies this, specials, lightOn
      ensures specialsActiveCount <= SPECIAL_COUNT && SpecialsOk(specials[..specialsActiveCount])
      ensures LitOnly(lightOn[..], SpecialLights(old(specials[..specialsActiveCount])))
      ensures specials[..specialsActiveCount] == Survivors(old(specials[..specialsActiveCount]))
      ensures fliersActiveCount == old(fliersActiveCount) && hostLog == old(hostLog)
    {
      ghost var sp0 := specials[..specialsActiveCount];
      SurvivorsWellFormed(sp0);
      ClearLights();
      ghost var dark := lightOn[..];
      var completeCount := MarkSpecials();
      LitFromDark(dark, lightOn[..], SpecialLights(sp0));
      Compact(Advanced(sp0), completeCount);
    }

    /** The end of the specials part: the `completeCount` specials at the front are dropped. */
    method Compact(ghost a: seq<nat>, completeCount: nat)
      requires specials.Length == SPECIAL_COUNT && specialsActiveCount <= SPECIAL_COUNT
      requires specials[..specialsActiveCount] == a && completeCount <= |a|
      modifies this, specials
      ensures specialsActiveCount == old(specialsActiveCount) - completeCount
      ensures specials[..specialsActiveCount] == a[completeCount..]
      ensures fliersActiveCount == old(fliersActiveCount) && hostLog == old(hostLog)
    {
      if completeCount > 0 {
        specialsActiveCount := specialsActiveCount - completeCount;
        if specialsActiveCount > 0 {
          DropCompleted(completeCount);
        }
      }
    }

    /**
     * One step of the light show: what `processAudio` does each time the
     * trigger period has passed.
     */
    method Step()
      requires Valid()
      modifies this, fliers, specials, lightOn
      ensures Valid()
      ensures LitOnly(lightOn[..], SpecialLights(old(specials[..specialsActiveCount]))
                                   + FlierLights(old(fliers[..]), old(fliersActiveCount)))
      ensures specials[..specialsActiveCount] ==
        Launched(Survivors(old(specials[..specialsActiveCount])), AnyLaunch(old(fliers[..]), old(fliersActiveCount)))
      ensures forall c :: 0 <= c < FLIER_COUNT ==>
        fliers[c] == if c < old(fliersActiveCount) then NextFlier(old(fliers[c]), c) else old(fliers[c])
      ensures fliersActiveCount == NextFliersActive(old(fliers[..]), old(fliersActiveCount))
      ensures hostLog == old(hostLog) + DiffCalls(lightCc, parameterIds, old(lightOn[..]), lightOn[..], LIGHTS)
    {
      ghost var sp0 := specials[..specialsActiveCount];
      ghost var fl0 := fliers[..];
      ghost var fa0 := fliersActiveCount;
      var lightOnWas := lightOn[..];
      RunSpecials();
      ghost var marked := lightOn[..];
      RunFliers();
      LitOnlyMore(marked, lightOn[..], SpecialLights(sp0), FlierLights(fl0, fa0));
      LaunchedOk(Survivors(sp0), AnyLaunch(fl0, fa0));
      forall c | 0 <= c < fliersActiveCount
        ensures fliers[c] <= NORMAL_COUNT * Speed(c)
      {
        if c < fa0 {
          FlierBounds(fl0[c], c);
        }
      }
      EmitDiff(lightOnWas);
    }

    /**
     * `processAudio`: the step runs when the trigger period has passed
     * (`triggered`), then both channels are silenced.
     */
    method ProcessAudio(triggered: bool, left: array<real>, right: array<real>)
      requires Valid() && left != right
      modifies this, fliers, specials, lightOn, left, right
      ensures Valid()
      ensures !triggered ==> hostLog == old(hostLog) && lightOn[..] == old(lightOn[..])
      ensures !triggered ==> fliers[..] == old(fliers[..]) && specials[..] == old(specials[..])
                             && fliersActiveCount == old(fliersActiveCount)
                             && specialsActiveCount == old(specialsActiveCount)
      ensures triggered ==> LitOnly(lightOn[..], SpecialLights(old(specials[..specialsActiveCount]))
                                    + FlierLights(old(fliers[..]), old(fliersActiveCount)))
      ensures triggered ==> (specials[..specialsActiveCount] ==
        Launched(Survivors(old(specials[..specialsActiveCount])), AnyLaunch(old(fliers[..]), old(fliersActiveCount))))
      ensures triggered ==> (forall c :: 0 <= c < FLIER_COUNT ==>
        fliers[c] == if c < old(fliersActiveCount) then NextFlier(old(fliers[c]), c) else old(fliers[c]))
      ensures triggered ==> fliersActiveCount == NextFliersActive(old(fliers[..]), old(fliersActiveCount))
      ensures triggered ==> hostLog == old(hostLog) + DiffCalls(lightCc, parameterIds, old(lightOn[..]), lightOn[..], LIGHTS)
      ensures Silenced(left[..], old(left[..]), BlockSize(left, right))
      ensures Silenced(right[..], old(right[..]), BlockSize(left, right))
    {
      if triggered {
        Step();
      }
      var size := BlockSize(left, right);
      Silence(left, size);
      Silence(right, size);
    }
  }

  /** The `registerParameter` calls of the constructor. */
  method RegisterAll(ids: seq<ParameterId>) returns (log: seq<HostCall>)
    requires |ids| == MIRRORED
    ensures log == RegisterCalls(ids, MIRRORED)
  {
    log := [];
    var c := 0;
    while c < MIRRORED
      invariant 0 <= c <= MIRRORED && log == RegisterCalls(ids, c)
    {
      log := log + [RegisterParameter(ids[c], ParameterName(c))];
      assert RegisterCalls(ids, c + 1) == RegisterCalls(ids, c) + [RegisterParameter(ids[c], ParameterName(c))];
      c := c + 1;
    }
  }
}
