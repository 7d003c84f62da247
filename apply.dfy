/** The three-phase apply of applyConfiguration: under a server grab, disable
    every configured controller, resize the screen, then enable the
    controllers that have a mode, with a sync after each phase. The model
    records the X requests as a trace; a small semantics of those requests
    gives the display state they leave behind. */
module Apply {
  import opened Hardware
  import opened Records

  /** The display-changing requests applyConfiguration issues, in the order
      it issues them. */
  datatype XCall =
    | Grab
    | Disable(crtc: Id)
    | Sync
    | SetScreenSize(width: int, height: int, mmWidth: int, mmHeight: int)
    | Enable(crtc: Id, x: int, y: int, mode: Id, rotation: int, outputs: seq<Id>)
    | Ungrab

  /** The XRRSetCrtcConfig request that gives controller `c.crtc` its
      configuration. */
  function EnableCall(c: CRTConfig): XCall
  {
    Enable(c.crtc, c.x, c.y, c.mode, c.rotation, c.outputs)
  }

  /** The XRRSetScreenSize request for a profile's Screen section. */
  function ResizeCall(g: ScreenGeometry): XCall
  {
    SetScreenSize(g.width, g.height, g.mmWidth, g.mmHeight)
  }

  /** Step 3: one disable request per configured controller, in order. */
  function DisablePhase(cs: seq<CRTConfig>): (calls: seq<XCall>)
    ensures |calls| == |cs|
    ensures forall i :: 0 <= i < |cs| ==> calls[i] == Disable(cs[i].crtc)
  {
    if cs == [] then []
    else DisablePhase(cs[..|cs| - 1]) + [Disable(cs[|cs| - 1].crtc)]
  }

  /** Step 5: an enable request for each controller whose mode is not None.
      Every request it issues is an enable with a real mode. */
  function EnablePhase(cs: seq<CRTConfig>): (calls: seq<XCall>)
    ensures |calls| <= |cs|
    ensures forall call :: call in calls ==> call.Enable? && call.mode != NONE
  {
    if cs == [] then []
    else
      var c := cs[|cs| - 1];
      EnablePhase(cs[..|cs| - 1]) + (if c.mode != NONE then [EnableCall(c)] else [])
  }

  /** The whole request sequence of a successful applyConfiguration. */
  function ApplyTrace(cs: seq<CRTConfig>, g: ScreenGeometry): (t: seq<XCall>)
    ensures |t| == |cs| + |EnablePhase(cs)| + 6
    ensures t[0] == Grab && t[|t| - 1] == Ungrab
  {
    [Grab] + DisablePhase(cs) + [Sync] + [ResizeCall(g)] + [Sync] + EnablePhase(cs) + [Sync] + [Ungrab]
  }

  /** The enable phase issues exactly the enable requests of the
      controllers that have a mode: each request comes from such a
      controller, and each such controller gets its request. */
  lemma {:induction false} EnablePhaseExact(cs: seq<CRTConfig>)
    ensures forall call :: call in EnablePhase(cs) ==>
              exists k :: 0 <= k < |cs| && cs[k].mode != NONE && call == EnableCall(cs[k])
    ensures forall k :: 0 <= k < |cs| && cs[k].mode != NONE ==> EnableCall(cs[k]) in EnablePhase(cs)
    decreases |cs|
  {
    if cs != [] {
      var init := cs[..|cs| - 1];
      EnablePhaseExact(init);
      var e := EnablePhase(cs);
      forall call | call in e
        ensures exists k :: 0 <= k < |cs| && cs[k].mode != NONE && call == EnableCall(cs[k])
      {
        if call in EnablePhase(init) {
          var k :| 0 <= k < |init| && init[k].mode != NONE && call == EnableCall(init[k]);
          assert cs[k] == init[k];
        } else {
          assert call == EnableCall(cs[|cs| - 1]);
        }
      }
      forall k | 0 <= k < |cs| && cs[k].mode != NONE ensures EnableCall(cs[k]) in e {
        if k < |init| {
          assert init[k] == cs[k];
        }
      }
    }
  }

  /** Request `i` of the trace, read off its five parts. */
  lemma TraceAt(cs: seq<CRTConfig>, g: ScreenGeometry, i: nat)
    requires i < |ApplyTrace(cs, g)|
    ensures var n, t := |cs|, ApplyTrace(cs, g);
      |t| == n + |EnablePhase(cs)| + 6 &&
      (i == 0 ==> t[i] == Grab) &&
      (1 <= i <= n ==> t[i] == Disable(cs[i - 1].crtc)) &&
      (i == n + 1 || i == n + 3 || i == |t| - 2 ==> t[i] == Sync) &&
      (i == n + 2 ==> t[i] == ResizeCall(g)) &&
      (n + 4 <= i < |t| - 2 ==> t[i] == EnablePhase(cs)[i - n - 4]) &&
      (i == |t| - 1 ==> t[i] == Ungrab)
  {
    var a := [Grab] + DisablePhase(cs);
    var b := a + [Sync] + [ResizeCall(g)] + [Sync];
    var c := b + EnablePhase(cs);
    var t := c + [Sync] + [Ungrab];
    if i < |c| {
      assert t[i] == c[i];
      if i < |b| {
        assert c[i] == b[i];
        if i < |a| {
          assert b[i] == a[i];
        }
      }
    }
  }

  /** Where each kind of request sits in the trace of a successful apply:
      the grab first and the ungrab last, the disables of all configured
      controllers in profile order right after the grab, the single resize
      after all of them, and every enable after the resize. */
  lemma ApplyOrder(cs: seq<CRTConfig>, g: ScreenGeometry)
    ensures var t := ApplyTrace(cs, g);
      |t| == |cs| + |EnablePhase(cs)| + 6 &&
      t[0] == Grab && t[|t| - 1] == Ungrab &&
      (forall i :: 0 <= i < |cs| ==> t[1 + i] == Disable(cs[i].crtc)) &&
      t[|cs| + 2] == ResizeCall(g) &&
      (forall i :: 0 <= i < |t| && t[i].Disable? ==> 1 <= i <= |cs|) &&
      (forall i :: 0 <= i < |t| && t[i].SetScreenSize? ==> i == |cs| + 2) &&
      (forall i :: 0 <= i < |t| && t[i].Enable? ==> |cs| + 4 <= i < |t| - 2)
  {
    var t := ApplyTrace(cs, g);
    TraceAt(cs, g, 0);
    TraceAt(cs, g, |cs| + 2);
    TraceAt(cs, g, |t| - 1);
    forall i | 0 <= i < |cs| ensures t[1 + i] == Disable(cs[i].crtc) {
      TraceAt(cs, g, 1 + i);
    }
    forall i | 0 <= i < |t|
      ensures (t[i].Disable? ==> 1 <= i <= |cs|) && (t[i].SetScreenSize? ==> i == |cs| + 2) &&
              (t[i].Enable? ==> |cs| + 4 <= i < |t| - 2)
    {
      TraceAt(cs, g, i);
      if |cs| + 4 <= i < |t| - 2 {
        assert EnablePhase(cs)[i - |cs| - 4] in EnablePhase(cs);
      }
    }
  }

  /** Every disable comes before the resize, and the resize before every
      enable, so no controller is enabled before the screen has its size. */
  lemma PhasesInOrder(cs: seq<CRTConfig>, g: ScreenGeometry, i: nat, j: nat)
    requires i < |ApplyTrace(cs, g)| && j < |ApplyTrace(cs, g)|
    ensures ApplyTrace(cs, g)[i].Disable? && ApplyTrace(cs, g)[j].SetScreenSize? ==> i < j
    ensures ApplyTrace(cs, g)[i].SetScreenSize? && ApplyTrace(cs, g)[j].Enable? ==> i < j
    ensures ApplyTrace(cs, g)[i].Disable? && ApplyTrace(cs, g)[j].Enable? ==> i < j
  {
    ApplyOrder(cs, g);
  }

  /** The controller ids a list of configs mentions. */
  function Configured(cs: seq<CRTConfig>): set<Id>
  {
    set i | 0 <= i < |cs| :: cs[i].crtc
  }

  /** No two configs are for the same controller. */
  predicate DistinctControllers(cs: seq<CRTConfig>)
  {
    forall i, j :: 0 <= i < j < |cs| ==> cs[i].crtc != cs[j].crtc
  }

  /** A controller all of whose configs have mode None is disabled and
      never re-enabled: no enable request in the trace names it. */
  lemma DisabledNeverEnabled(cs: seq<CRTConfig>, g: ScreenGeometry, k: nat)
    requires k < |cs| && forall j :: 0 <= j < |cs| && cs[j].crtc == cs[k].crtc ==> cs[j].mode == NONE
    ensures Disable(cs[k].crtc) in ApplyTrace(cs, g)
    ensures forall call :: call in ApplyTrace(cs, g) && call.Enable? ==> call.crtc != cs[k].crtc
  {
    var t := ApplyTrace(cs, g);
    TraceAt(cs, g, 1 + k);
    forall call | call in t && call.Enable? ensures call.crtc != cs[k].crtc {
      var i :| 0 <= i < |t| && t[i] == call;
      TraceAt(cs, g, i);
      var e := EnablePhase(cs);
      assert call == e[i - |cs| - 4];
      EnablePhaseCrtc(cs, call);
    }
  }

  /** An enable request of the enable phase names a controller whose
      config has a mode. */
  lemma EnablePhaseCrtc(cs: seq<CRTConfig>, call: XCall)
    requires call in EnablePhase(cs)
    ensures exists m :: 0 <= m < |cs| && cs[m].mode != NONE && call.crtc == cs[m].crtc
  {
    EnablePhaseExact(cs);
  }

  /** The state of one controller as the X server holds it. */
  datatype Setting = Setting(x: int, y: int, mode: Id, rotation: int, outputs: seq<Id>)

  /** What a disable request leaves: origin, no mode, RR_Rotate_0, no output. */
  const OFF: Setting := Setting(0, 0, NONE, RR_ROTATE_0, [])

  /** The setting an enable request gives a controller. */
  function SettingOf(c: CRTConfig): Setting
  {
    Setting(c.x, c.y, c.mode, c.rotation, c.outputs)
  }

  /** The display state the requests act on: each controller's setting, the
      screen size and whether the server is grabbed. */
  datatype Display = Display(crtcs: map<Id, Setting>, screen: ScreenGeometry, grabbed: bool)

  /** The effect of one request, taken to succeed. */
  function Step(d: Display, call: XCall): Display
  {
    match call
    case Grab => d.(grabbed := true)
    case Ungrab => d.(grabbed := false)
    case Sync => d
    case Disable(c) => d.(crtcs := d.crtcs[c := OFF])
    case SetScreenSize(w, h, mw, mh) => d.(screen := ScreenGeometry(w, h, mw, mh))
    case Enable(c, x, y, m, r, os) => d.(crtcs := d.crtcs[c := Setting(x, y, m, r, os)])
  }

  /** The effect of a sequence of requests, in order. */
  function Run(calls: seq<XCall>, d: Display): Display
  {
    if calls == [] then d else Step(Run(calls[..|calls| - 1], d), calls[|calls| - 1])
  }

  /** Running two sequences one after the other is running their
      concatenation. */
  lemma {:induction false} RunAppend(a: seq<XCall>, b: seq<XCall>, d: Display)
    ensures Run(a + b, d) == Run(b, Run(a, d))
    decreases |b|
  {
    if b == [] {
      assert a + b == a;
    } else {
      var b' := b[..|b| - 1];
      RunAppend(a, b', d);
      assert (a + b)[..|a + b| - 1] == a + b';
    }
  }

  /** The controller map after the disable phase. */
  function DisableAll(m: map<Id, Setting>, cs: seq<CRTConfig>): map<Id, Setting>
  {
    if cs == [] then m else DisableAll(m, cs[..|cs| - 1])[cs[|cs| - 1].crtc := OFF]
  }

  /** The controller map after the enable phase. */
  function EnableAll(m: map<Id, Setting>, cs: seq<CRTConfig>): map<Id, Setting>
  {
    if cs == [] then m
    else
      var c := cs[|cs| - 1];
      var m' := EnableAll(m, cs[..|cs| - 1]);
      if c.mode != NONE then m'[c.crtc := SettingOf(c)] else m'
  }

  lemma ConfiguredSnoc(cs: seq<CRTConfig>)
    requires cs != []
    ensures Configured(cs) == Configured(cs[..|cs| - 1]) + {cs[|cs| - 1].crtc}
  {
    var init := cs[..|cs| - 1];
    forall x | x in Configured(cs) ensures x in Configured(init) + {cs[|cs| - 1].crtc} {
      var i :| 0 <= i < |cs| && cs[i].crtc == x;
      if i < |init| { assert init[i] == cs[i]; }
    }
    forall x | x in Configured(init) ensures x in Configured(cs) {
      var i :| 0 <= i < |init| && init[i].crtc == x;
      assert cs[i] == init[i];
    }
  }

  /** The disable phase turns every configured controller off and leaves
      every other controller as it was. */
  lemma {:induction false} DisableAllMeaning(m: map<Id, Setting>, cs: seq<CRTConfig>)
    ensures DisableAll(m, cs).Keys == m.Keys + Configured(cs)
    ensures forall k :: k in DisableAll(m, cs) ==> DisableAll(m, cs)[k] == if k in Configured(cs) then OFF else m[k]
    decreases |cs|
  {
    if cs != [] {
      DisableAllMeaning(m, cs[..|cs| - 1]);
      ConfiguredSnoc(cs);
    }
  }

  /** The enable phase touches only configured controllers. */
  lemma {:induction false} EnableAllFrame(m: map<Id, Setting>, cs: seq<CRTConfig>)
    ensures m.Keys <= EnableAll(m, cs).Keys <= m.Keys + Configured(cs)
    ensures forall k :: k in m && k !in Configured(cs) ==> EnableAll(m, cs)[k] == m[k]
    decreases |cs|
  {
    if cs != [] {
      EnableAllFrame(m, cs[..|cs| - 1]);
      ConfiguredSnoc(cs);
    }
  }

  /** Running the disable phase is DisableAll on the controller map. */
  lemma {:induction false} RunDisablePhase(cs: seq<CRTConfig>, d: Display)
    ensures Run(DisablePhase(cs), d) == d.(crtcs := DisableAll(d.crtcs, cs))
    decreases |cs|
  {
    if cs != [] {
      var init := cs[..|cs| - 1];
      RunDisablePhase(init, d);
      RunAppend(DisablePhase(init), [Disable(cs[|cs| - 1].crtc)], d);
    }
  }

  /** Running the enable phase is EnableAll on the controller map. */
  lemma {:induction false} RunEnablePhase(cs: seq<CRTConfig>, d: Display)
    ensures Run(EnablePhase(cs), d) == d.(crtcs := EnableAll(d.crtcs, cs))
    decreases |cs|
  {
    if cs != [] {
      var init := cs[..|cs| - 1];
      var c := cs[|cs| - 1];
      RunEnablePhase(init, d);
      var tail := if c.mode != NONE then [EnableCall(c)] else [];
      RunAppend(EnablePhase(init), tail, d);
      if c.mode == NONE {
        assert Run(tail, Run(EnablePhase(init), d)) == Run(EnablePhase(init), d);
      }
    }
  }

  /** The display a successful apply leaves behind: configured controllers
      disabled and then the ones with a mode enabled, the profile's screen
      size, and the server ungrabbed. */
  function Applied(cs: seq<CRTConfig>, g: ScreenGeometry, d: Display): Display
  {
    Display(EnableAll(DisableAll(d.crtcs, cs), cs), g, false)
  }

  /** Running one more request is one more step. */
  lemma RunSnoc(a: seq<XCall>, c: XCall, d: Display)
    ensures Run(a + [c], d) == Step(Run(a, d), c)
  {
    assert (a + [c])[..|a|] == a;
  }

  /** The grab and the disable phase. */
  lemma RunGrabDisable(cs: seq<CRTConfig>, d: Display)
    ensures Run([Grab] + DisablePhase(cs), d) == Display(DisableAll(d.crtcs, cs), d.screen, true)
  {
    RunSnoc([], Grab, d);
    assert [Grab] == [] + [Grab];
    RunAppend([Grab], DisablePhase(cs), d);
    RunDisablePhase(cs, d.(grabbed := true));
  }

  /** The resize with a sync on either side sets the screen size alone. */
  lemma RunResize(a: seq<XCall>, g: ScreenGeometry, d: Display)
    ensures Run(a + [Sync] + [ResizeCall(g)] + [Sync], d) == Run(a, d).(screen := g)
  {
    RunSnoc(a, Sync, d);
    RunSnoc(a + [Sync], ResizeCall(g), d);
    RunSnoc(a + [Sync] + [ResizeCall(g)], Sync, d);
  }

  /** The sync and the ungrab that end the trace release the grab alone. */
  lemma RunRelease(a: seq<XCall>, d: Display)
    ensures Run(a + [Sync] + [Ungrab], d) == Run(a, d).(grabbed := false)
  {
    RunSnoc(a, Sync, d);
    RunSnoc(a + [Sync], Ungrab, d);
  }

  /** The grab, the disable phase and the resize with its syncs. */
  lemma RunPrologue(cs: seq<CRTConfig>, g: ScreenGeometry, d: Display)
    ensures Run([Grab] + DisablePhase(cs) + [Sync] + [ResizeCall(g)] + [Sync], d) ==
            Display(DisableAll(d.crtcs, cs), g, true)
  {
    RunGrabDisable(cs, d);
    RunResize([Grab] + DisablePhase(cs), g, d);
  }

  /** Running the trace of a successful apply yields `Applied`. */
  lemma RunApplyTrace(cs: seq<CRTConfig>, g: ScreenGeometry, d: Display)
    ensures Run(ApplyTrace(cs, g), d) == Applied(cs, g, d)
  {
    var t5 := [Grab] + DisablePhase(cs) + [Sync] + [ResizeCall(g)] + [Sync];
    RunPrologue(cs, g, d);
    RunAppend(t5, EnablePhase(cs), d);
    RunEnablePhase(cs, Run(t5, d));
    RunRelease(t5 + EnablePhase(cs), d);
  }

  /** Disabling after enabling is just disabling: every controller the
      enable phase touches is turned off again. */
  lemma DisableAfterEnable(x: map<Id, Setting>, cs: seq<CRTConfig>)
    ensures DisableAll(EnableAll(x, cs), cs) == DisableAll(x, cs)
  {
    EnableAllFrame(x, cs);
    DisableAllMeaning(EnableAll(x, cs), cs);
    DisableAllMeaning(x, cs);
  }

  /** Disabling twice is disabling once. */
  lemma DisableTwice(m: map<Id, Setting>, cs: seq<CRTConfig>)
    ensures DisableAll(DisableAll(m, cs), cs) == DisableAll(m, cs)
  {
    DisableAllMeaning(m, cs);
    DisableAllMeaning(DisableAll(m, cs), cs);
  }

  /** Applying the same resolved configs twice leaves the display exactly
      as applying them once: the outcome depends only on the configs, the
      screen size and the controllers the configs do not mention. */
  lemma ApplyIdempotent(cs: seq<CRTConfig>, g: ScreenGeometry, d: Display)
    ensures Run(ApplyTrace(cs, g), Run(ApplyTrace(cs, g), d)) == Run(ApplyTrace(cs, g), d)
  {
    RunApplyTrace(cs, g, d);
    var d1 := Applied(cs, g, d);
    RunApplyTrace(cs, g, d1);
    var m := DisableAll(d.crtcs, cs);
    DisableAfterEnable(m, cs);
    DisableTwice(d.crtcs, cs);
  }

  /** With one config per controller the final setting of every configured
      controller is its config's (off when its mode is None), and every
      other controller keeps its setting. */
  lemma {:induction false} EnableAllAt(m: map<Id, Setting>, cs: seq<CRTConfig>, k: nat)
    requires DistinctControllers(cs) && k < |cs| && cs[k].mode != NONE
    ensures cs[k].crtc in EnableAll(m, cs) && EnableAll(m, cs)[cs[k].crtc] == SettingOf(cs[k])
    decreases |cs|
  {
    var init := cs[..|cs| - 1];
    if k < |init| {
      assert init[k] == cs[k];
      EnableAllAt(m, init, k);
    }
  }

  /** A controller with mode None keeps what the disable phase left. */
  lemma {:induction false} EnableAllSkips(m: map<Id, Setting>, cs: seq<CRTConfig>, k: nat)
    requires DistinctControllers(cs) && k < |cs| && cs[k].mode == NONE && cs[k].crtc in m
    ensures cs[k].crtc in EnableAll(m, cs) && EnableAll(m, cs)[cs[k].crtc] == m[cs[k].crtc]
    decreases |cs|
  {
    var init := cs[..|cs| - 1];
    if k < |init| {
      assert init[k] == cs[k];
      EnableAllSkips(m, init, k);
    } else {
      EnableAllFrame(m, init);
      assert cs[k].crtc !in Configured(init);
    }
  }

  /** The final display of a successful apply: each configured controller
      runs its config, or is off when its mode is None; the others keep
      their setting; the screen has the profile's size; the grab is released. */
  lemma ApplyResult(cs: seq<CRTConfig>, g: ScreenGeometry, d: Display)
    requires DistinctControllers(cs)
    ensures var r := Run(ApplyTrace(cs, g), d);
      r.screen == g && !r.grabbed &&
      (forall k :: 0 <= k < |cs| ==>
         cs[k].crtc in r.crtcs && r.crtcs[cs[k].crtc] == (if cs[k].mode != NONE then SettingOf(cs[k]) else OFF)) &&
      (forall c :: c in d.crtcs && c !in Configured(cs) ==> c in r.crtcs && r.crtcs[c] == d.crtcs[c])
  {
    RunApplyTrace(cs, g, d);
    var m := DisableAll(d.crtcs, cs);
    DisableAllMeaning(d.crtcs, cs);
    EnableAllFrame(m, cs);
    forall k | 0 <= k < |cs|
      ensures cs[k].crtc in EnableAll(m, cs) &&
              EnableAll(m, cs)[cs[k].crtc] == if cs[k].mode != NONE then SettingOf(cs[k]) else OFF
    {
      assert cs[k].crtc in Configured(cs);
      if cs[k].mode != NONE {
        EnableAllAt(m, cs, k);
      } else {
        EnableAllSkips(m, cs, k);
      }
    }
  }
}
