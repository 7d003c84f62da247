/** Resolution of profile sections to live handles (getOutputConfigs and the
    per-section part of applyConfiguration), as pure definitions over the
    server oracle. The imperative loops in CRTControllerManager are proved
    equal to these definitions; the properties are proved here. */
module Resolve {
  import opened Hardware
  import opened Records
  import opened Lookup

  /** Lookups a retry loop performs at most before it gives up. */
  const MAX_LOOKUPS: nat := 12

  /** What a retry loop leaves behind: the handle it settled on (NONE when it
      gave up or found nothing), the server after its refreshes, and the
      number of lookups made so far (the loop's `attempts` counter plus one). */
  datatype Await = Await(handle: Id, server: Server, lookups: nat)

  /** The output retry loop of getOutputConfigs, entered with `attempts`
      already made: on "try again" it refreshes the resources and gives up
      once `attempts > 10`, otherwise it counts the attempt and looks again. */
  function AwaitOutput(s: Server, name: string, attempts: nat): (r: Await)
    requires attempts <= 11
    ensures attempts < r.lookups <= MAX_LOOKUPS
    ensures r.handle != NONE ==> LookupOutput(r.server.current, name) == Resolved(r.handle)
    ensures r.handle == NONE && r.lookups < MAX_LOOKUPS ==> !LookupOutput(r.server.current, name).NotYetAvailable?
    decreases 11 - attempts
  {
    match LookupOutput(s.current, name)
    case Resolved(id) => Await(id, s, attempts + 1)
    case NotFound => Await(NONE, s, attempts + 1)
    case NotYetAvailable =>
      var s' := s.Refresh();
      if attempts > 10 then Await(NONE, s', attempts + 1)
      else AwaitOutput(s', name, attempts + 1)
  }

  /** The mode retry loop of getOutputConfigs: unlike the output loop it
      tests the attempt counter before it refreshes. */
  function AwaitMode(s: Server, name: string, output: Id, attempts: nat): (r: Await)
    requires attempts <= 11
    ensures attempts < r.lookups <= MAX_LOOKUPS
    ensures r.handle != NONE ==> LookupMode(r.server.current, name, output) == Resolved(r.handle)
    ensures r.handle == NONE && r.lookups < MAX_LOOKUPS ==> LookupMode(r.server.current, name, output) == Resolved(NONE)
    decreases 11 - attempts
  {
    var look := LookupMode(s.current, name, output);
    if look.Resolved? then Await(look.id, s, attempts + 1)
    else if attempts > 10 then Await(NONE, s, attempts + 1)
    else AwaitMode(s.Refresh(), name, output, attempts + 1)
  }

  /** The output `name` is present but disconnected in the current topology
      and in every topology still to come. */
  predicate NeverConnected(s: Server, name: string)
  {
    forall t :: t in s.Reported() ==> LookupOutput(t, name).NotYetAvailable?
  }

  /** No current or future topology offers mode `name` on `output`. */
  predicate ModeNeverVisible(s: Server, name: string, output: Id)
  {
    forall t :: t in s.Reported() ==> !LookupMode(t, name, output).Resolved?
  }

  /** An output that never connects is given up on after exactly twelve
      lookups, with a refresh after each of them. */
  lemma {:induction false} NeverConnectedGivesUp(s: Server, name: string, attempts: nat)
    requires attempts <= 11
    requires NeverConnected(s, name)
    ensures AwaitOutput(s, name, attempts) == Await(NONE, s.RefreshN(MAX_LOOKUPS - attempts), MAX_LOOKUPS)
    decreases 11 - attempts
  {
    var s' := s.Refresh();
    s.RefreshReportsNothingNew();
    assert s.current in s.Reported();
    if attempts < 11 {
      NeverConnectedGivesUp(s', name, attempts + 1);
    }
  }

  /** A mode that never shows up on the output is given up on after exactly
      twelve lookups, with only eleven refreshes in between. */
  lemma {:induction false} ModeNeverVisibleGivesUp(s: Server, name: string, output: Id, attempts: nat)
    requires attempts <= 11
    requires ModeNeverVisible(s, name, output)
    ensures AwaitMode(s, name, output, attempts) == Await(NONE, s.RefreshN(11 - attempts), MAX_LOOKUPS)
    decreases 11 - attempts
  {
    assert s.current in s.Reported();
    if attempts < 11 {
      var s' := s.Refresh();
      s.RefreshReportsNothingNew();
      ModeNeverVisibleGivesUp(s', name, output, attempts + 1);
    }
  }

  /** An output that is present but disconnected for the next `k` readings
      and connected on the one after is found, provided the loop still has
      that many attempts left: the answer arrives after `k` refreshes. */
  lemma {:induction false} OutputConnectsInTime(s: Server, name: string, attempts: nat, k: nat, id: Id)
    requires attempts + k <= 11
    requires forall j :: 0 <= j < k ==> LookupOutput(s.RefreshN(j).current, name).NotYetAvailable?
    requires LookupOutput(s.RefreshN(k).current, name) == Resolved(id)
    ensures AwaitOutput(s, name, attempts) == Await(id, s.RefreshN(k), attempts + k + 1)
    decreases k
  {
    if k > 0 {
      assert LookupOutput(s.RefreshN(0).current, name).NotYetAvailable?;
      forall j | 0 <= j < k - 1 ensures LookupOutput(s.Refresh().RefreshN(j).current, name).NotYetAvailable? {
        assert s.RefreshN(j + 1) == s.Refresh().RefreshN(j);
      }
      assert s.RefreshN(k) == s.Refresh().RefreshN(k - 1);
      OutputConnectsInTime(s.Refresh(), name, attempts + 1, k - 1, id);
    }
  }

  /** A mode that is missing from the output for the next `k` readings and
      offered on the one after is found after `k` refreshes, provided the
      loop still has that many attempts left. */
  lemma {:induction false} ModeAppearsInTime(s: Server, name: string, output: Id, attempts: nat, k: nat, id: Id)
    requires attempts + k <= 11
    requires forall j :: 0 <= j < k ==> !LookupMode(s.RefreshN(j).current, name, output).Resolved?
    requires LookupMode(s.RefreshN(k).current, name, output) == Resolved(id)
    ensures AwaitMode(s, name, output, attempts) == Await(id, s.RefreshN(k), attempts + k + 1)
    decreases k
  {
    if k > 0 {
      assert !LookupMode(s.RefreshN(0).current, name, output).Resolved?;
      AwaitModeRetries(s, name, output, attempts);
      forall j | 0 <= j < k - 1 ensures !LookupMode(s.Refresh().RefreshN(j).current, name, output).Resolved? {
        assert s.RefreshN(j + 1) == s.Refresh().RefreshN(j);
      }
      assert s.RefreshN(k) == s.Refresh().RefreshN(k - 1);
      ModeAppearsInTime(s.Refresh(), name, output, attempts + 1, k - 1, id);
    }
  }

  /** A mode lookup that does not resolve, with attempts left, refreshes
      and looks again. */
  lemma AwaitModeRetries(s: Server, name: string, output: Id, attempts: nat)
    requires attempts <= 10 && !LookupMode(s.current, name, output).Resolved?
    ensures AwaitMode(s, name, output, attempts) == AwaitMode(s.Refresh(), name, output, attempts + 1)
  {
  }

  /** On a settled server the output loop leaves the server as it was. */
  lemma {:induction false} SettledAwaitOutput(s: Server, name: string, attempts: nat)
    requires s.Settled() && attempts <= 11
    ensures AwaitOutput(s, name, attempts).server == s
    decreases 11 - attempts
  {
    if LookupOutput(s.current, name).NotYetAvailable? && attempts <= 10 {
      SettledAwaitOutput(s.Refresh(), name, attempts + 1);
    }
  }

  /** On a settled server the mode loop leaves the server as it was. */
  lemma {:induction false} SettledAwaitMode(s: Server, name: string, output: Id, attempts: nat)
    requires s.Settled() && attempts <= 11
    ensures AwaitMode(s, name, output, attempts).server == s
    decreases 11 - attempts
  {
    if !LookupMode(s.current, name, output).Resolved? && attempts <= 10 {
      SettledAwaitMode(s.Refresh(), name, output, attempts + 1);
    }
  }

  /** An output name that no output carries fails on the first lookup,
      without any refresh. */
  lemma AbsentOutputFailsAtOnce(s: Server, name: string)
    requires LookupOutput(s.current, name).NotFound?
    ensures AwaitOutput(s, name, 0) == Await(NONE, s, 1)
  {
  }

  /** Every reading `b` will report, `a` reports too: `b` is `a` after some
      refreshes. */
  predicate Later(a: Server, b: Server)
  {
    forall t :: t in b.Reported() ==> t in a.Reported()
  }

  /** Refreshing twice over is still refreshing. */
  lemma LaterTrans(a: Server, b: Server, c: Server)
    requires Later(a, b) && Later(b, c)
    ensures Later(a, c)
  {
  }

  /** The output loop only ever moves on to readings the server was going
      to report. */
  lemma {:induction false} AwaitOutputLater(s: Server, name: string, attempts: nat)
    requires attempts <= 11
    ensures Later(s, AwaitOutput(s, name, attempts).server)
    decreases 11 - attempts
  {
    s.RefreshReportsNothingNew();
    if LookupOutput(s.current, name).NotYetAvailable? && attempts <= 10 {
      AwaitOutputLater(s.Refresh(), name, attempts + 1);
    }
  }

  /** The mode loop only ever moves on to readings the server was going to
      report. */
  lemma {:induction false} AwaitModeLater(s: Server, name: string, output: Id, attempts: nat)
    requires attempts <= 11
    ensures Later(s, AwaitMode(s, name, output, attempts).server)
    decreases 11 - attempts
  {
    s.RefreshReportsNothingNew();
    if !LookupMode(s.current, name, output).Resolved? && attempts <= 10 {
      AwaitModeLater(s.Refresh(), name, output, attempts + 1);
    }
  }

  /** The loop over a section's output names, from the point where `acc`
      has been built: resolve the output, then its mode; the first mode
      fixes the controller's mode and a different later mode fails. */
  function OutputsFrom(s: Server, names: seq<string>, modeName: string, acc: OutputConfigs): (r: (Server, OutputConfigs))
    decreases |names|
  {
    if names == [] then (s, acc)
    else
      var o := AwaitOutput(s, names[0], 0);
      if o.handle == NONE then (o.server, acc.(error := -ENODEV))
      else
        var acc1 := acc.(outputs := acc.outputs + [o.handle]);
        var m := AwaitMode(o.server, modeName, o.handle, 0);
        if m.handle == NONE then (m.server, acc1.(error := -ENODEV))
        else if acc1.mode == NONE then OutputsFrom(m.server, names[1..], modeName, acc1.(mode := m.handle))
        else if m.handle != acc1.mode then (m.server, acc1.(error := -ENODEV, mode := NONE))
        else OutputsFrom(m.server, names[1..], modeName, acc1)
  }

  /** getOutputConfigs: a section whose mode is "None" resolves to no output
      and mode None; otherwise every output name is resolved. */
  function OutputConfigsFor(s: Server, names: seq<string>, modeName: string): (Server, OutputConfigs)
  {
    if modeName == MODE_OFF then (s, NO_OUTPUTS)
    else OutputsFrom(s, names, modeName, NO_OUTPUTS)
  }

  /** The handles in `ids` are all real ones. */
  predicate NoNone(ids: seq<Id>)
  {
    forall k :: 0 <= k < |ids| ==> ids[k] != NONE
  }

  /** What a successful OutputsFrom adds to a consistent accumulator: one
      real output per name, in order, and a mode that is not None once there
      is an output. Every failure is -ENODEV. */
  lemma {:induction false} OutputsFromShape(s: Server, names: seq<string>, modeName: string, acc: OutputConfigs)
    requires acc.error == 0 && NoNone(acc.outputs) && (acc.mode == NONE <==> acc.outputs == [])
    ensures var oc := OutputsFrom(s, names, modeName, acc).1;
      (oc.error == 0 || oc.error == -ENODEV) &&
      (oc.error == 0 ==>
         |oc.outputs| == |acc.outputs| + |names| && oc.outputs[..|acc.outputs|] == acc.outputs &&
         NoNone(oc.outputs) && (oc.mode == NONE <==> oc.outputs == []) &&
         (acc.mode != NONE ==> oc.mode == acc.mode))
    decreases |names|
  {
    if names != [] {
      var o := AwaitOutput(s, names[0], 0);
      if o.handle != NONE {
        var acc1 := acc.(outputs := acc.outputs + [o.handle]);
        assert NoNone(acc1.outputs);
        var m := AwaitMode(o.server, modeName, o.handle, 0);
        if m.handle != NONE {
          if acc1.mode == NONE {
            OutputsFromShape(m.server, names[1..], modeName, acc1.(mode := m.handle));
          } else if m.handle == acc1.mode {
            OutputsFromShape(m.server, names[1..], modeName, acc1);
          }
          var oc := OutputsFrom(s, names, modeName, acc).1;
          if oc.error == 0 {
            assert oc.outputs[..|acc1.outputs|] == acc1.outputs;
            assert oc.outputs[..|acc.outputs|] == acc1.outputs[..|acc.outputs|];
          }
        }
      }
    }
  }

  /** Some reading of `s` resolves `name` to the connected output `o`, and
      some reading offers a mode named `modeName` on `o` as `m`. */
  predicate SeenIn(s: Server, name: string, modeName: string, o: Id, m: Id)
  {
    (exists t :: t in s.Reported() && LookupOutput(t, name) == Resolved(o)) &&
    (exists t :: t in s.Reported() && LookupMode(t, modeName, o) == Resolved(m))
  }

  /** What a reading of a later server showed, a reading of the earlier one
      showed. */
  lemma SeenInLater(a: Server, b: Server, name: string, modeName: string, o: Id, m: Id)
    requires Later(a, b) && SeenIn(b, name, modeName, o, m)
    ensures SeenIn(a, name, modeName, o, m)
  {
  }

  /** Output `outs[k]` and mode `mode` were seen in `s` for `names[k]`, for
      every k. */
  predicate AllSeen(s: Server, names: seq<string>, modeName: string, outs: seq<Id>, mode: Id)
  {
    |outs| == |names| && forall k :: 0 <= k < |names| ==> SeenIn(s, names[k], modeName, outs[k], mode)
  }

  /** When both loops for one name succeed, what they settle on was seen,
      and they only move on to readings the server was going to report. */
  lemma AwaitBothSeen(s: Server, name: string, modeName: string)
    ensures var o := AwaitOutput(s, name, 0);
      var m := AwaitMode(o.server, modeName, o.handle, 0);
      Later(s, m.server) &&
      (o.handle != NONE && m.handle != NONE ==> SeenIn(s, name, modeName, o.handle, m.handle))
  {
    var o := AwaitOutput(s, name, 0);
    AwaitOutputLater(s, name, 0);
    var m := AwaitMode(o.server, modeName, o.handle, 0);
    AwaitModeLater(o.server, modeName, o.handle, 0);
    LaterTrans(s, o.server, m.server);
    assert o.server.current in o.server.Reported();
    assert m.server.current in m.server.Reported();
  }

  /** Seeing the head in `s` and the rest in a later server is seeing all in `s`. */
  lemma AllSeenCons(s: Server, s1: Server, names: seq<string>, modeName: string, o: Id, outs: seq<Id>, mode: Id)
    requires names != [] && Later(s, s1)
    requires SeenIn(s, names[0], modeName, o, mode) && AllSeen(s1, names[1..], modeName, outs, mode)
    ensures AllSeen(s, names, modeName, [o] + outs, mode)
  {
    forall k | 0 <= k < |names| ensures SeenIn(s, names[k], modeName, ([o] + outs)[k], mode) {
      if k > 0 {
        assert names[k] == names[1..][k - 1] && ([o] + outs)[k] == outs[k - 1];
        SeenInLater(s, s1, names[k], modeName, outs[k - 1], mode);
      }
    }
  }

  /** The output loop only moves on to readings the server was going to
      report. */
  lemma {:induction false} OutputsFromLater(s: Server, names: seq<string>, modeName: string, acc: OutputConfigs)
    ensures Later(s, OutputsFrom(s, names, modeName, acc).0)
    decreases |names|
  {
    if names != [] {
      var o := AwaitOutput(s, names[0], 0);
      AwaitOutputLater(s, names[0], 0);
      AwaitBothSeen(s, names[0], modeName);
      if o.handle != NONE {
        var acc1 := acc.(outputs := acc.outputs + [o.handle]);
        var m := AwaitMode(o.server, modeName, o.handle, 0);
        if m.handle != NONE && (acc1.mode == NONE || m.handle == acc1.mode) {
          var acc2 := if acc1.mode == NONE then acc1.(mode := m.handle) else acc1;
          var s' := OutputsFrom(m.server, names[1..], modeName, acc2).0;
          assert s' == OutputsFrom(s, names, modeName, acc).0;
          OutputsFromLater(m.server, names[1..], modeName, acc2);
          LaterTrans(s, m.server, s');
        }
      }
    }
  }

  /** What the outputs of a successful OutputsFrom are, whatever the retry
      timing: the k-th added output is the connected output that some
      reading resolved `names[k]` to, and on it some reading offered the
      profile's mode as the controller's mode. */
  lemma {:induction false} OutputsFromMeaning(s: Server, names: seq<string>, modeName: string, acc: OutputConfigs)
    requires acc.error == 0
    ensures var oc := OutputsFrom(s, names, modeName, acc).1;
      oc.error == 0 ==>
        |oc.outputs| >= |acc.outputs| && oc.outputs[..|acc.outputs|] == acc.outputs &&
        (acc.mode != NONE ==> oc.mode == acc.mode) &&
        AllSeen(s, names, modeName, oc.outputs[|acc.outputs|..], oc.mode)
    decreases |names|
  {
    if names == [] {
      assert OutputsFrom(s, names, modeName, acc).1.outputs[|acc.outputs|..] == [];
    } else {
      var o := AwaitOutput(s, names[0], 0);
      if o.handle != NONE {
        var acc1 := acc.(outputs := acc.outputs + [o.handle]);
        var m := AwaitMode(o.server, modeName, o.handle, 0);
        if m.handle != NONE && (acc1.mode == NONE || m.handle == acc1.mode) {
          var acc2 := if acc1.mode == NONE then acc1.(mode := m.handle) else acc1;
          var oc := OutputsFrom(m.server, names[1..], modeName, acc2).1;
          assert oc == OutputsFrom(s, names, modeName, acc).1;
          if oc.error == 0 {
            OutputsFromMeaning(m.server, names[1..], modeName, acc2);
            AwaitBothSeen(s, names[0], modeName);
            SplitAfter(oc.outputs, acc.outputs, o.handle);
            AllSeenCons(s, m.server, names, modeName, o.handle, oc.outputs[|acc2.outputs|..], oc.mode);
          }
        }
      }
    }
  }

  /** getOutputConfigs either fails with -ENODEV or returns one real output
      per name in profile order with a common mode that is None exactly when
      there is no output, so the "runtime error" branch (mode None with
      outputs) is never taken. A "None" mode yields no output, no lookup. */
  lemma OutputConfigsShape(s: Server, names: seq<string>, modeName: string)
    ensures var (s', oc) := OutputConfigsFor(s, names, modeName);
      (oc.error == 0 || oc.error == -ENODEV) &&
      (modeName == MODE_OFF ==> s' == s && oc == NO_OUTPUTS) &&
      (oc.error == 0 && modeName != MODE_OFF ==> |oc.outputs| == |names|) &&
      (oc.error == 0 ==> NoNone(oc.outputs) && (oc.mode == NONE <==> oc.outputs == []))
  {
    if modeName != MODE_OFF {
      OutputsFromShape(s, names, modeName, NO_OUTPUTS);
    }
  }

  /** The per-section step of applyConfiguration: a section without outputs
      is off and needs no lookup; otherwise getOutputConfigs decides. */
  function ResolveSection(s: Server, sec: CrtcSection): (Server, OutputConfigs)
  {
    if sec.outputs == [] then (s, NO_OUTPUTS)
    else OutputConfigsFor(s, sec.outputs, sec.mode)
  }

  /** A section with no outputs, or with mode "None", resolves to mode None
      and no outputs without touching the resources. */
  lemma DisabledSectionNeedsNoLookup(s: Server, sec: CrtcSection)
    requires sec.outputs == [] || sec.mode == MODE_OFF
    ensures ResolveSection(s, sec) == (s, NO_OUTPUTS)
  {
  }

  /** The CRTConfig built from a section and its resolved outputs. */
  function MakeConfig(sec: CrtcSection, oc: OutputConfigs): (c: CRTConfig)
  {
    CRTConfig(sec.crtc, sec.x, sec.y, oc.mode, sec.rotation, oc.outputs, |oc.outputs|)
  }

  /** `c` is a faithful resolution of `sec` against the readings of `s`:
      same controller, position and rotation, `noutputs` counting its
      outputs, all of them real; off (mode None, no outputs) when the
      section lists no output or mode "None"; otherwise a mode that is not
      None and, for each name in order, the connected output some reading
      gave that name, on which some reading offered the section's mode as
      that mode. */
  predicate Realizes(s: Server, sec: CrtcSection, c: CRTConfig)
  {
    c.crtc == sec.crtc && c.x == sec.x && c.y == sec.y && c.rotation == sec.rotation &&
    c.noutputs == |c.outputs| && NoNone(c.outputs) &&
    if sec.outputs == [] || sec.mode == MODE_OFF then c.mode == NONE && c.outputs == []
    else
      c.mode != NONE && AllSeen(s, sec.outputs, sec.mode, c.outputs, c.mode)
  }

  /** A resolution realized against a later server is realized against an
      earlier one. */
  lemma RealizesLater(a: Server, b: Server, sec: CrtcSection, c: CRTConfig)
    requires Later(a, b) && Realizes(b, sec, c)
    ensures Realizes(a, sec, c)
  {
    if sec.outputs != [] && sec.mode != MODE_OFF {
      forall k | 0 <= k < |sec.outputs| ensures SeenIn(a, sec.outputs[k], sec.mode, c.outputs[k], c.mode) {
        SeenInLater(a, b, sec.outputs[k], sec.mode, c.outputs[k], c.mode);
      }
    }
  }

  /** A section that resolves without error is realized by its CRTConfig,
      against the readings from the one it started with; resolution only
      moves on to readings the server was going to report. */
  lemma SectionRealized(s: Server, sec: CrtcSection)
    ensures var (s1, oc) := ResolveSection(s, sec);
      Later(s, s1) && (oc.error == 0 ==> Realizes(s, sec, MakeConfig(sec, oc)))
  {
    if sec.outputs != [] {
      OutputConfigsShape(s, sec.outputs, sec.mode);
      if sec.mode != MODE_OFF {
        OutputsFromMeaning(s, sec.outputs, sec.mode, NO_OUTPUTS);
        OutputsFromLater(s, sec.outputs, sec.mode, NO_OUTPUTS);
        assert OutputsFrom(s, sec.outputs, sec.mode, NO_OUTPUTS).1.outputs[0..]
            == OutputsFrom(s, sec.outputs, sec.mode, NO_OUTPUTS).1.outputs;
      }
    }
  }

  /** The result of resolving all sections: the server afterwards, the
      configs built so far, and the first non-zero error (0 if none). */
  datatype Resolution = Resolution(server: Server, configs: seq<CRTConfig>, error: int)

  /** The section loop of applyConfiguration from the point where `acc`
      holds the configs built so far: it stops at the first error. */
  function ResolveFrom(s: Server, sections: seq<CrtcSection>, acc: seq<CRTConfig>): (r: Resolution)
    decreases |sections|
  {
    if sections == [] then Resolution(s, acc, 0)
    else
      var (s1, oc) := ResolveSection(s, sections[0]);
      if oc.error != 0 then Resolution(s1, acc, oc.error)
      else ResolveFrom(s1, sections[1..], acc + [MakeConfig(sections[0], oc)])
  }

  /** Resolve every section of a profile, in file order. */
  function ResolveSections(s: Server, sections: seq<CrtcSection>): Resolution
  {
    ResolveFrom(s, sections, [])
  }

  /** `configs` realizes `sections` one for one, in order, against the
      readings of `s`. */
  predicate RealizesAll(s: Server, sections: seq<CrtcSection>, configs: seq<CRTConfig>)
  {
    |configs| == |sections| && forall i :: 0 <= i < |sections| ==> Realizes(s, sections[i], configs[i])
  }

  /** Realizing the head and the tail realizes the whole. */
  lemma RealizesAllCons(s: Server, sections: seq<CrtcSection>, c: CRTConfig, rest: seq<CRTConfig>)
    requires sections != [] && Realizes(s, sections[0], c) && RealizesAll(s, sections[1..], rest)
    ensures RealizesAll(s, sections, [c] + rest)
  {
    forall i | 0 <= i < |sections| ensures Realizes(s, sections[i], ([c] + rest)[i]) {
      if i > 0 {
        assert sections[i] == sections[1..][i - 1];
        assert ([c] + rest)[i] == rest[i - 1];
      }
    }
  }

  /** A sequence that starts with `acc + [c]` starts with `acc`, and what
      follows `acc` is `c` and the rest. */
  lemma SplitAfter<T>(xs: seq<T>, acc: seq<T>, c: T)
    requires |xs| >= |acc| + 1 && xs[..|acc| + 1] == acc + [c]
    ensures xs[..|acc|] == acc && xs[|acc|..] == [c] + xs[|acc| + 1..]
  {
    assert xs[..|acc|] == xs[..|acc| + 1][..|acc|];
    assert xs[|acc|] == xs[..|acc| + 1][|acc|];
  }

  /** Realizing against a later server is realizing against an earlier one. */
  lemma RealizesAllLater(a: Server, b: Server, sections: seq<CrtcSection>, configs: seq<CRTConfig>)
    requires Later(a, b) && RealizesAll(b, sections, configs)
    ensures RealizesAll(a, sections, configs)
  {
    forall i | 0 <= i < |sections| ensures Realizes(a, sections[i], configs[i]) {
      RealizesLater(a, b, sections[i], configs[i]);
    }
  }

  /** A successful resolution keeps `acc` and adds one realizing config per
      section, in section order, against the readings from the one it
      started with; the section loop only moves on to readings the server
      was going to report. */
  lemma {:induction false} ResolveFromRealizes(s: Server, sections: seq<CrtcSection>, acc: seq<CRTConfig>)
    ensures var r := ResolveFrom(s, sections, acc);
      Later(s, r.server) &&
      (r.error == 0 ==>
        |r.configs| >= |acc| && r.configs[..|acc|] == acc && RealizesAll(s, sections, r.configs[|acc|..]))
    decreases |sections|
  {
    if sections == [] {
      assert ResolveFrom(s, sections, acc).configs[|acc|..] == [];
    } else {
      var (s1, oc) := ResolveSection(s, sections[0]);
      SectionRealized(s, sections[0]);
      if oc.error == 0 {
        var c := MakeConfig(sections[0], oc);
        var acc1 := acc + [c];
        ResolveFromRealizes(s1, sections[1..], acc1);
        var r := ResolveFrom(s1, sections[1..], acc1);
        assert ResolveFrom(s, sections, acc) == r;
        LaterTrans(s, s1, r.server);
        if r.error == 0 {
          SplitAfter(r.configs, acc, c);
          RealizesAllLater(s, s1, sections[1..], r.configs[|acc1|..]);
          RealizesAllCons(s, sections, c, r.configs[|acc1|..]);
        }
      }
    }
  }

  /** On a settled server resolving sections leaves the server as it was. */
  lemma {:induction false} SettledResolveFrom(s: Server, sections: seq<CrtcSection>, acc: seq<CRTConfig>)
    requires s.Settled()
    ensures ResolveFrom(s, sections, acc).server == s
    decreases |sections|
  {
    if sections != [] {
      var sec := sections[0];
      if sec.outputs != [] && sec.mode != MODE_OFF {
        SettledOutputsFromServer(s, sec.outputs, sec.mode, NO_OUTPUTS);
      }
      var (s1, oc) := ResolveSection(s, sec);
      if oc.error == 0 {
        SettledResolveFrom(s1, sections[1..], acc + [MakeConfig(sec, oc)]);
      }
    }
  }

  /** On a settled server the output loop of a section leaves the server
      as it was. */
  lemma {:induction false} SettledOutputsFromServer(s: Server, names: seq<string>, modeName: string, acc: OutputConfigs)
    requires s.Settled()
    ensures OutputsFrom(s, names, modeName, acc).0 == s
    decreases |names|
  {
    if names != [] {
      SettledAwaitOutput(s, names[0], 0);
      var o := AwaitOutput(s, names[0], 0);
      if o.handle != NONE {
        SettledAwaitMode(s, modeName, o.handle, 0);
        var m := AwaitMode(s, modeName, o.handle, 0);
        var acc1 := acc.(outputs := acc.outputs + [o.handle]);
        SettledOutputsFromServer(s, names[1..], modeName, acc1.(mode := m.handle));
        SettledOutputsFromServer(s, names[1..], modeName, acc1);
      }
    }
  }

  /** Resolving sections fails, if at all, with -ENODEV. */
  lemma {:induction false} ResolveFromError(s: Server, sections: seq<CrtcSection>, acc: seq<CRTConfig>)
    ensures ResolveFrom(s, sections, acc).error == 0 || ResolveFrom(s, sections, acc).error == -ENODEV
    decreases |sections|
  {
    if sections != [] {
      var sec := sections[0];
      if sec.outputs != [] {
        OutputConfigsShape(s, sec.outputs, sec.mode);
      }
      var (s1, oc) := ResolveSection(s, sec);
      if oc.error == 0 {
        ResolveFromError(s1, sections[1..], acc + [MakeConfig(sec, oc)]);
      }
    }
  }

  /** A successful resolution of a profile yields exactly one realizing
      CRTConfig per section, in section order: each output is the connected
      output some reading gave its name, and the mode is the section's mode
      as some reading offered it on every one of them. */
  lemma ResolveSectionsRealize(s: Server, sections: seq<CrtcSection>)
    ensures var r := ResolveSections(s, sections);
      r.error == 0 ==> RealizesAll(s, sections, r.configs)
  {
    ResolveFromRealizes(s, sections, []);
    assert ResolveSections(s, sections).configs[0..] == ResolveSections(s, sections).configs;
  }

  /** With a settled server, name `name` resolves at once to output `o`, on
      which mode `modeName` resolves at once to `m`. */
  predicate ResolvesTo(t: Topology, name: string, modeName: string, o: Id, m: Id)
  {
    LookupOutput(t, name) == Resolved(o) && o != NONE &&
    LookupMode(t, modeName, o) == Resolved(m) && m != NONE
  }

  /** The mode the controller ends up with: the one already fixed, else the
      first resolved one. */
  function FixedMode(mode: Id, ms: seq<Id>): Id
  {
    if mode != NONE then mode else if ms == [] then NONE else ms[0]
  }

  /** Every resolved mode equals the controller's mode. */
  predicate AllAgree(mode: Id, ms: seq<Id>)
  {
    forall k :: 0 <= k < |ms| ==> ms[k] == FixedMode(mode, ms)
  }

  /** Moving the head of `b` to the end of `a` keeps the concatenation. */
  lemma AppendHead<T>(a: seq<T>, b: seq<T>)
    requires b != []
    ensures (a + [b[0]]) + b[1..] == a + b
  {
    assert b == [b[0]] + b[1..];
  }

  /** When no mode is fixed yet, the first resolved mode becomes the one the
      rest must agree with. */
  lemma AgreeFromFirst(ms: seq<Id>)
    requires ms != [] && ms[0] != NONE
    ensures AllAgree(NONE, ms) <==> AllAgree(ms[0], ms[1..])
  {
    if AllAgree(ms[0], ms[1..]) {
      forall k | 0 <= k < |ms| ensures ms[k] == FixedMode(NONE, ms) {
        if k > 0 { assert ms[k] == ms[1..][k - 1]; }
      }
    }
    if AllAgree(NONE, ms) {
      forall k | 0 <= k < |ms[1..]| ensures ms[1..][k] == FixedMode(ms[0], ms[1..]) {
        assert ms[1..][k] == ms[k + 1];
      }
    }
  }

  /** Once a mode is fixed, a first mode equal to it changes nothing. */
  lemma AgreeWithFixed(mode: Id, ms: seq<Id>)
    requires mode != NONE && ms != [] && ms[0] == mode
    ensures AllAgree(mode, ms) <==> AllAgree(mode, ms[1..])
  {
    if AllAgree(mode, ms[1..]) {
      forall k | 0 <= k < |ms| ensures ms[k] == FixedMode(mode, ms) {
        if k > 0 { assert ms[k] == ms[1..][k - 1]; }
      }
    }
    if AllAgree(mode, ms) {
      forall k | 0 <= k < |ms[1..]| ensures ms[1..][k] == FixedMode(mode, ms[1..]) {
        assert ms[1..][k] == ms[k + 1];
      }
    }
  }

  /** On a settled server, OutputsFrom succeeds exactly when every output's
      mode agrees with the fixed mode, and otherwise fails with -ENODEV and
      mode None. */
  lemma {:induction false} SettledOutputsFrom(s: Server, names: seq<string>, modeName: string, acc: OutputConfigs,
                                              os: seq<Id>, ms: seq<Id>)
    requires s.Settled() && |os| == |names| && |ms| == |names|
    requires forall k :: 0 <= k < |names| ==> ResolvesTo(s.current, names[k], modeName, os[k], ms[k])
    requires acc.error == 0
    ensures var (s', oc) := OutputsFrom(s, names, modeName, acc);
      s' == s &&
      if AllAgree(acc.mode, ms) then oc == OutputConfigs(acc.outputs + os, FixedMode(acc.mode, ms), 0)
      else oc.error == -ENODEV && oc.mode == NONE
    decreases |names|
  {
    if names == [] {
      assert acc.outputs + os == acc.outputs;
    } else {
      assert ResolvesTo(s.current, names[0], modeName, os[0], ms[0]);
      var o := AwaitOutput(s, names[0], 0);
      assert o == Await(os[0], s, 1);
      var acc1 := acc.(outputs := acc.outputs + [os[0]]);
      var m := AwaitMode(s, modeName, os[0], 0);
      assert m == Await(ms[0], s, 1);
      forall k | 0 <= k < |names[1..]|
        ensures ResolvesTo(s.current, names[1..][k], modeName, os[1..][k], ms[1..][k])
      {
        assert ResolvesTo(s.current, names[k + 1], modeName, os[k + 1], ms[k + 1]);
      }
      AppendHead(acc.outputs, os);
      if acc.mode == NONE {
        AgreeFromFirst(ms);
        SettledOutputsFrom(s, names[1..], modeName, acc1.(mode := ms[0]), os[1..], ms[1..]);
      } else if ms[0] != acc.mode {
        assert !AllAgree(acc.mode, ms) by {
          assert ms[0] != FixedMode(acc.mode, ms);
        }
      } else {
        AgreeWithFixed(acc.mode, ms);
        SettledOutputsFrom(s, names[1..], modeName, acc1, os[1..], ms[1..]);
      }
    }
  }

  /** Mode agreement on a settled server, where every output and its mode
      resolve at the first lookup: when every listed output is
      connected and offers the profile's mode, two outputs whose modes
      differ make the section fail with -ENODEV and mode None, and outputs
      that all share one mode resolve to those outputs, in profile order,
      with that mode. */
  lemma SettledModeAgreement(s: Server, names: seq<string>, modeName: string, os: seq<Id>, ms: seq<Id>)
    requires s.Settled() && modeName != MODE_OFF && |os| == |names| && |ms| == |names| && names != []
    requires forall k :: 0 <= k < |names| ==> ResolvesTo(s.current, names[k], modeName, os[k], ms[k])
    ensures var (s', oc) := OutputConfigsFor(s, names, modeName);
      s' == s &&
      ((exists i, j :: 0 <= i < j < |ms| && ms[i] != ms[j]) ==> oc.error == -ENODEV && oc.mode == NONE) &&
      ((forall k :: 0 <= k < |ms| ==> ms[k] == ms[0]) ==> oc == OutputConfigs(os, ms[0], 0))
  {
    SettledOutputsFrom(s, names, modeName, NO_OUTPUTS, os, ms);
    assert [] + os == os;
    AgreeMeansEqual(ms);
  }

  /** With no mode fixed beforehand, agreement means all modes are equal. */
  lemma AgreeMeansEqual(ms: seq<Id>)
    requires ms != []
    ensures AllAgree(NONE, ms) <==> forall k :: 0 <= k < |ms| ==> ms[k] == ms[0]
    ensures AllAgree(NONE, ms) <==> !exists i, j :: 0 <= i < j < |ms| && ms[i] != ms[j]
    ensures FixedMode(NONE, ms) == ms[0]
  {
    if exists i, j :: 0 <= i < j < |ms| && ms[i] != ms[j] {
      var i, j :| 0 <= i < j < |ms| && ms[i] != ms[j];
      assert ms[i] != ms[0] || ms[j] != ms[0];
    }
  }

  /** The mode each output of a section resolved to, in profile order, for
      as far as the output loop got: one entry per output whose mode
      resolved, ending with the mode that did not agree, if any. `fixed` is
      the mode the controller had when the loop reached `names`. This
      follows `OutputsFrom` step for step, because `OutputConfigs` (the
      source's record) keeps only the controller's mode, not the mode each
      output resolved to; `OutputsFromAgree` ties the two together. */
  function ResolvedModes(s: Server, names: seq<string>, modeName: string, fixed: Id): (ms: seq<Id>)
    ensures |ms| <= |names| && NoNone(ms)
    decreases |names|
  {
    if names == [] then []
    else
      var o := AwaitOutput(s, names[0], 0);
      if o.handle == NONE then []
      else
        var m := AwaitMode(o.server, modeName, o.handle, 0);
        if m.handle == NONE then []
        else if fixed == NONE then [m.handle] + ResolvedModes(m.server, names[1..], modeName, m.handle)
        else if m.handle != fixed then [m.handle]
        else [m.handle] + ResolvedModes(m.server, names[1..], modeName, fixed)
  }

  /** The output loop, whatever the retry timing: when it succeeds every
      output resolved to a mode and all of them agree with the controller's
      mode; when two of them disagree it fails with -ENODEV and mode None. */
  lemma {:induction false} OutputsFromAgree(s: Server, names: seq<string>, modeName: string, acc: OutputConfigs)
    requires acc.error == 0
    ensures var oc := OutputsFrom(s, names, modeName, acc).1;
      var ms := ResolvedModes(s, names, modeName, acc.mode);
      (oc.error == 0 ==> |ms| == |names| && AllAgree(acc.mode, ms) && oc.mode == FixedMode(acc.mode, ms)) &&
      (!AllAgree(acc.mode, ms) ==> oc.error == -ENODEV && oc.mode == NONE)
    decreases |names|
  {
    if names != [] {
      var o := AwaitOutput(s, names[0], 0);
      if o.handle != NONE {
        var acc1 := acc.(outputs := acc.outputs + [o.handle]);
        var m := AwaitMode(o.server, modeName, o.handle, 0);
        if m.handle != NONE {
          var ms := ResolvedModes(s, names, modeName, acc.mode);
          if acc.mode == NONE {
            OutputsFromAgree(m.server, names[1..], modeName, acc1.(mode := m.handle));
            AgreeFromFirst(ms);
          } else if m.handle == acc.mode {
            OutputsFromAgree(m.server, names[1..], modeName, acc1);
            AgreeWithFixed(acc.mode, ms);
          } else {
            assert ms == [m.handle];
            assert ms[0] != FixedMode(acc.mode, ms);
          }
        }
      }
    }
  }

  /** Mode agreement in getOutputConfigs, whatever the retry timing: a
      successful section has resolved every output to one and the same mode,
      which is the controller's mode, and two outputs whose modes differ make
      the section fail with -ENODEV and mode None. */
  lemma ModeAgreement(s: Server, names: seq<string>, modeName: string)
    requires modeName != MODE_OFF
    ensures var oc := OutputConfigsFor(s, names, modeName).1;
      var ms := ResolvedModes(s, names, modeName, NONE);
      (oc.error == 0 ==> |ms| == |names| && forall k :: 0 <= k < |ms| ==> ms[k] == oc.mode) &&
      ((exists i, j :: 0 <= i < j < |ms| && ms[i] != ms[j]) ==> oc.error == -ENODEV && oc.mode == NONE)
  {
    OutputsFromAgree(s, names, modeName, NO_OUTPUTS);
    var ms := ResolvedModes(s, names, modeName, NONE);
    if ms != [] {
      AgreeMeansEqual(ms);
    }
  }
}
