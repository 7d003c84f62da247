/** applyConfiguration as one pure definition over the server oracle and the
    parsed profile files: reconnect (a fresh reading of the resources), check
    that both profiles are readable, run the structural check, resolve every
    section, and only then issue the three-phase request sequence. The
    CRTControllerManager class is proved to compute exactly this. */
module Engine {
  import opened Hardware
  import opened Records
  import opened Lookup
  import opened Resolve
  import opened Validation
  import opened Apply
  import opened Snapshot

  /** Why applyConfiguration returned: it committed the configuration, a
      profile file could not be read, the structural check rejected the
      profile, or a section did not resolve (with the section's error). */
  datatype Status = Committed | ProfileUnreadable | ProfileRejected(why: Validity) | ResolutionFailed(error: int)

  /** What one call of applyConfiguration leaves behind: its verdict, the
      server after the refreshes it made, and the X requests it issued. */
  datatype Outcome = Outcome(status: Status, server: Server, trace: seq<XCall>)

  /** The readability check of step 0: both profile files, whatever the
      requested state. */
  predicate BothReadable(files: map<string, Profile>)
  {
    CONFIG_LOCATION_DOCKED in files && CONFIG_LOCATION_UNDOCKED in files
  }

  /** applyConfiguration(state). A profile file is readable when the map
      holds its path; the file reconnect is one refresh of the resources. */
  function Reconcile(s: Server, files: map<string, Profile>, state: DockState): (o: Outcome)
    requires state != Invalid
    ensures o.status.Committed? <==> o.trace != []
  {
    var s0 := s.Refresh();
    if !BothReadable(files) then Outcome(ProfileUnreadable, s0, [])
    else
      var p := files[ProfilePath(state)];
      var v := ValidateProfile(s0.current, p.crtcs);
      if v != Compatible then Outcome(ProfileRejected(v), s0, [])
      else
        var r := ResolveSections(s0, p.crtcs);
        if r.error != 0 then Outcome(ResolutionFailed(r.error), r.server, [])
        else Outcome(Committed, r.server, ApplyTrace(r.configs, p.screen))
  }

  /** Every way applyConfiguration can fail is decided before the server is
      grabbed: an unreadable profile (either one, whatever the state), too
      few sections, a changed controller map, or a section that does not
      resolve (always -ENODEV). Each failure issues no request at all. */
  lemma FailureIssuesNothing(s: Server, files: map<string, Profile>, state: DockState)
    requires state != Invalid
    ensures var o := Reconcile(s, files, state);
      (!o.status.Committed? ==> o.trace == []) &&
      (o.status == ProfileUnreadable <==> !BothReadable(files)) &&
      (o.status.ProfileRejected? <==>
         BothReadable(files) && ValidateProfile(s.Refresh().current, files[ProfilePath(state)].crtcs) != Compatible) &&
      (o.status.ProfileRejected? ==> o.status.why == ValidateProfile(s.Refresh().current, files[ProfilePath(state)].crtcs)) &&
      (o.status.ResolutionFailed? ==> o.status.error == -ENODEV)
  {
    if BothReadable(files) {
      var p := files[ProfilePath(state)];
      ResolveFromError(s.Refresh(), p.crtcs, []);
    }
  }

  /** A committed apply resolved every section to a config that realizes
      it, in profile order (the outputs named, connected and offering the
      section's mode in readings from the refreshed one on), and issued exactly the three-phase sequence for
      those configs and the profile's Screen section. */
  lemma CommitMeansResolved(s: Server, files: map<string, Profile>, state: DockState)
    requires state != Invalid
    ensures var o := Reconcile(s, files, state);
      o.status.Committed? ==>
        var p := files[ProfilePath(state)];
        var cs := ResolveSections(s.Refresh(), p.crtcs).configs;
        ValidateProfile(s.Refresh().current, p.crtcs) == Compatible &&
        RealizesAll(s.Refresh(), p.crtcs, cs) && o.trace == ApplyTrace(cs, p.screen) &&
        o.trace[0] == Grab && o.trace[|o.trace| - 1] == Ungrab
  {
    if Reconcile(s, files, state).status.Committed? {
      var p := files[ProfilePath(state)];
      ResolveSectionsRealize(s.Refresh(), p.crtcs);
      ApplyOrder(ResolveSections(s.Refresh(), p.crtcs).configs, p.screen);
    }
  }

  /** Round trip: a profile captured from a settled topology whose
      controller ids are distinct, and stored for the requested state,
      passes the readability and structural checks of applyConfiguration. */
  lemma CapturedProfilePassesChecks(s: Server, files: map<string, Profile>, state: DockState)
    requires state != Invalid && s.Settled()
    requires WellFormed(s.current) && Distinct(CrtcIds(s.current))
    requires Capture(s.current).Some? && BothReadable(files)
    requires files[ProfilePath(state)] == Capture(s.current).value
    ensures Reconcile(s, files, state).status.Committed? || Reconcile(s, files, state).status.ResolutionFailed?
  {
    assert s.Refresh() == s;
    CaptureValidates(s.current);
  }

  /** The topology of the first worked scenario: two controllers 1 and 2,
      one connected output "eDP-1" (id 10) that supports mode 100, called
      "1920x1080". */
  const LAPTOP: Topology :=
    Topology([Controller(1, 0, 0, NONE, RR_ROTATE_0, []), Controller(2, 0, 0, NONE, RR_ROTATE_0, [])],
             [Output(10, "eDP-1", true, [100])],
             [Mode(100, "1920x1080")],
             ScreenGeometry(1920, 1080, 344, 194))

  /** A profile driving "eDP-1" at "1920x1080" from controller 1 and
      leaving controller 2 without outputs. */
  const LAPTOP_PROFILE: Profile :=
    Profile(ScreenGeometry(1920, 1080, 344, 194),
            [CrtcSection(1, 0, 0, RR_ROTATE_0, "1920x1080", ["eDP-1"]),
             CrtcSection(2, 0, 0, RR_ROTATE_0, MODE_OFF, [])])

  /** Scenario: validation passes, controller 1 resolves to output 10 with
      mode 100, controller 2 resolves to off; the apply disables both,
      resizes the screen, and then enables controller 1 only. */
  lemma LaptopScenario(files: map<string, Profile>)
    requires BothReadable(files) && files[CONFIG_LOCATION_UNDOCKED] == LAPTOP_PROFILE
    ensures Reconcile(Server(LAPTOP, []), files, Undocked) ==
      Outcome(Committed, Server(LAPTOP, []),
              [Grab, Disable(1), Disable(2), Sync, SetScreenSize(1920, 1080, 344, 194), Sync,
               Enable(1, 0, 0, 100, RR_ROTATE_0, [10]), Sync, Ungrab])
  {
    var s := Server(LAPTOP, []);
    var secs := LAPTOP_PROFILE.crtcs;
    ValidateDistinct(LAPTOP, secs);
    assert SectionIds(secs) == [1, 2];
    assert CrtcIds(LAPTOP) == [1, 2];
    assert ValidateProfile(LAPTOP, secs) == Compatible;
    assert FirstOutputNamed(LAPTOP.outputs, "eDP-1") == 0;
    assert LookupOutput(LAPTOP, "eDP-1") == Resolved(10);
    assert OutputModes(LAPTOP, 10) == [100];
    assert FirstMatchingMode(LAPTOP.modes, "1920x1080", [100]) == 0;
    assert LookupMode(LAPTOP, "1920x1080", 10) == Resolved(100);
    var c1 := CRTConfig(1, 0, 0, 100, RR_ROTATE_0, [10], 1);
    var c2 := CRTConfig(2, 0, 0, NONE, RR_ROTATE_0, [], 0);
    assert AwaitOutput(s, "eDP-1", 0) == Await(10, s, 1);
    assert AwaitMode(s, "1920x1080", 10, 0) == Await(100, s, 1);
    assert OutputsFrom(s, ["eDP-1"][1..], "1920x1080", OutputConfigs([10], 100, 0)) == (s, OutputConfigs([10], 100, 0));
    assert NO_OUTPUTS.(outputs := NO_OUTPUTS.outputs + [10]).(mode := 100) == OutputConfigs([10], 100, 0);
    assert OutputsFrom(s, ["eDP-1"], "1920x1080", NO_OUTPUTS) == (s, OutputConfigs([10], 100, 0));
    assert ResolveSection(s, secs[0]) == (s, OutputConfigs([10], 100, 0));
    assert MakeConfig(secs[0], OutputConfigs([10], 100, 0)) == c1;
    assert ResolveFrom(s, secs[1..][1..], [c1, c2]) == Resolution(s, [c1, c2], 0);
    assert ResolveFrom(s, secs[1..], [c1]) == Resolution(s, [c1, c2], 0);
    assert [c1] + [c2] == [c1, c2];
    assert [] + [c1] == [c1];
    assert ResolveSections(s, secs) == Resolution(s, [c1, c2], 0);
    assert DisablePhase([c1, c2]) == [Disable(1), Disable(2)] by {
      assert [c1, c2][..1] == [c1];
    }
    assert EnablePhase([c1, c2]) == [Enable(1, 0, 0, 100, RR_ROTATE_0, [10])] by {
      assert [c1, c2][..1] == [c1];
      assert [c1][..0] == [];
    }
  }

  /** On the settled laptop, the only config that realizes the profile's
      first section is the one that drives output 10 with mode 100: the
      outputs and the mode of a realizing config are the live handles, not
      merely as many handles as there are names. */
  lemma LaptopSectionRealizedOnlyByLiveHandles(c: CRTConfig)
    requires Realizes(Server(LAPTOP, []), LAPTOP_PROFILE.crtcs[0], c)
    ensures c == CRTConfig(1, 0, 0, 100, RR_ROTATE_0, [10], 1)
  {
    var s := Server(LAPTOP, []);
    var sec := LAPTOP_PROFILE.crtcs[0];
    assert s.Reported() == [LAPTOP];
    assert FirstOutputNamed(LAPTOP.outputs, "eDP-1") == 0;
    assert LookupOutput(LAPTOP, "eDP-1") == Resolved(10);
    assert SeenIn(s, sec.outputs[0], sec.mode, c.outputs[0], c.mode);
    assert c.outputs[0] == 10;
    assert OutputModes(LAPTOP, 10) == [100];
    assert FirstMatchingMode(LAPTOP.modes, "1920x1080", [100]) == 0;
    assert LookupMode(LAPTOP, "1920x1080", 10) == Resolved(100);
    assert c.outputs == [10];
  }

  /** Scenario: the profile names "HDMI-1", which no output of the settled
      topology carries. The section fails at once with -ENODEV and nothing
      is issued. */
  lemma AbsentOutputScenario(files: map<string, Profile>)
    requires BothReadable(files)
    requires files[CONFIG_LOCATION_DOCKED] ==
      Profile(ScreenGeometry(3840, 1080, 677, 190),
              [CrtcSection(1, 0, 0, RR_ROTATE_0, "1920x1080", ["HDMI-1"]),
               CrtcSection(2, 0, 0, RR_ROTATE_0, MODE_OFF, [])])
    ensures Reconcile(Server(LAPTOP, []), files, Docked) == Outcome(ResolutionFailed(-ENODEV), Server(LAPTOP, []), [])
  {
    var s := Server(LAPTOP, []);
    var secs := files[CONFIG_LOCATION_DOCKED].crtcs;
    ValidateDistinct(LAPTOP, secs);
    assert SectionIds(secs) == [1, 2];
    assert CrtcIds(LAPTOP) == [1, 2];
    assert FirstOutputNamed(LAPTOP.outputs, "HDMI-1") == 1;
    assert LookupOutput(LAPTOP, "HDMI-1") == NotFound;
    assert ResolveSection(s, secs[0]) == (s, OutputConfigs([], NONE, -ENODEV));
  }

  /** Scenario: two sections for live controller 1, the first off and the
      second driving "eDP-1", and none for live controller 2. The count
      check accepts the profile, controller 1 is disabled twice and then
      enabled although one of its configs has mode None, and live
      controller 2 is never touched. */
  lemma DuplicateSectionScenario(files: map<string, Profile>)
    requires BothReadable(files)
    requires files[CONFIG_LOCATION_UNDOCKED] ==
      Profile(ScreenGeometry(1920, 1080, 344, 194),
              [CrtcSection(1, 0, 0, RR_ROTATE_0, MODE_OFF, []),
               CrtcSection(1, 0, 0, RR_ROTATE_0, "1920x1080", ["eDP-1"])])
    ensures Reconcile(Server(LAPTOP, []), files, Undocked) ==
      Outcome(Committed, Server(LAPTOP, []),
              [Grab, Disable(1), Disable(1), Sync, SetScreenSize(1920, 1080, 344, 194), Sync,
               Enable(1, 0, 0, 100, RR_ROTATE_0, [10]), Sync, Ungrab])
    ensures Disable(2) !in Reconcile(Server(LAPTOP, []), files, Undocked).trace
  {
    var s := Server(LAPTOP, []);
    var secs := files[CONFIG_LOCATION_UNDOCKED].crtcs;
    DuplicateSectionMasksMissing(LAPTOP, secs[0], secs[1]);
    assert secs == [secs[0], secs[1]];
    assert LookupOutput(LAPTOP, "eDP-1") == Resolved(10) by {
      assert FirstOutputNamed(LAPTOP.outputs, "eDP-1") == 0;
    }
    assert LookupMode(LAPTOP, "1920x1080", 10) == Resolved(100) by {
      assert OutputModes(LAPTOP, 10) == [100];
      assert FirstMatchingMode(LAPTOP.modes, "1920x1080", [100]) == 0;
    }
    var c1 := CRTConfig(1, 0, 0, NONE, RR_ROTATE_0, [], 0);
    var c2 := CRTConfig(1, 0, 0, 100, RR_ROTATE_0, [10], 1);
    assert AwaitOutput(s, "eDP-1", 0) == Await(10, s, 1);
    assert AwaitMode(s, "1920x1080", 10, 0) == Await(100, s, 1);
    assert OutputsFrom(s, ["eDP-1"][1..], "1920x1080", OutputConfigs([10], 100, 0)) == (s, OutputConfigs([10], 100, 0));
    assert NO_OUTPUTS.(outputs := NO_OUTPUTS.outputs + [10]).(mode := 100) == OutputConfigs([10], 100, 0);
    assert ResolveSection(s, secs[1]) == (s, OutputConfigs([10], 100, 0));
    assert MakeConfig(secs[1], OutputConfigs([10], 100, 0)) == c2;
    assert ResolveFrom(s, secs[1..][1..], [c1, c2]) == Resolution(s, [c1, c2], 0);
    assert ResolveFrom(s, secs[1..], [c1]) == Resolution(s, [c1, c2], 0);
    assert [] + [c1] == [c1];
    assert ResolveSections(s, secs) == Resolution(s, [c1, c2], 0);
    assert DisablePhase([c1, c2]) == [Disable(1), Disable(1)] by {
      assert [c1, c2][..1] == [c1];
    }
    assert EnablePhase([c1, c2]) == [Enable(1, 0, 0, 100, RR_ROTATE_0, [10])] by {
      assert [c1, c2][..1] == [c1];
      assert [c1][..0] == [];
    }
  }
}
