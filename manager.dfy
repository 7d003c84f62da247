/** CRTControllerManager: the object whose `resources` field the retry loops
    refresh in place, whose X requests are recorded in `trace`, and whose
    profile files live in `files`. Each method is proved to do what the
    pure definitions of Resolve, Engine and Snapshot say. */
module Manager {
  import opened Hardware
  import opened Records
  import opened Lookup
  import opened Resolve
  import opened Validation
  import opened Apply
  import opened Snapshot
  import opened Engine

  class CRTControllerManager {
    /** The screen resources: the reading the manager holds now, and the
        readings that later refreshes will return. */
    var resources: Server
    /** The profile files that can be read, by path. */
    var files: map<string, Profile>
    /** Every display-changing X request issued so far, in order. */
    var trace: seq<XCall>
    /** The screen size the X connection recorded when it was opened. The
        display size queries read it, and fetching the resources again does
        not update it; only a new connection does. */
    var displaySize: ScreenGeometry

    /** The X server reports well-formed resources on every reading. */
    ghost predicate Valid()
      reads this
    {
      forall t :: t in resources.Reported() ==> WellFormed(t)
    }

    /** The constructor's connectToX: the manager holds the server's first
        reading and has issued nothing yet. */
    constructor (server: Server, profiles: map<string, Profile>)
      requires forall t :: t in server.Reported() ==> WellFormed(t)
      ensures Valid()
      ensures resources == server && files == profiles && trace == []
      ensures displaySize == server.current.screen
    {
      resources := server;
      files := profiles;
      trace := [];
      displaySize := server.current.screen;
    }

    /** Free the resources and fetch them again. */
    method RefreshResources()
      requires Valid()
      modifies this`resources
      ensures Valid()
      ensures resources == old(resources).Refresh()
    {
      resources.RefreshReportsNothingNew();
      resources := resources.Refresh();
    }

    /** The output retry loop of getOutputConfigs for one output name: look
        the name up; while it is present but disconnected, refresh, give up
        once `attempts > 10`, and look again. */
    method FindOutput(name: string) returns (output: Id)
      requires Valid()
      modifies this`resources
      ensures Valid()
      ensures output == AwaitOutput(old(resources), name, 0).handle
      ensures resources == AwaitOutput(old(resources), name, 0).server
    {
      ghost var s0 := resources;
      var attempts := 0;
      var look := GetRROutputByName(resources.current, name);
      while look.NotYetAvailable?
        invariant Valid()
        invariant attempts <= 11
        invariant look == LookupOutput(resources.current, name)
        invariant AwaitOutput(resources, name, attempts) == AwaitOutput(s0, name, 0)
        decreases 11 - attempts
      {
        RefreshResources();
        if attempts > 10 {
          look := NotFound;
          break;
        }
        attempts := attempts + 1;
        look := GetRROutputByName(resources.current, name);
      }
      output := if look.Resolved? then look.id else NONE;
    }

    /** The mode retry loop of getOutputConfigs for one resolved output:
        look the mode up among the modes the output supports; while it is
        not there, give up once `attempts > 10`, else refresh and look again. */
    method FindMode(name: string, output: Id) returns (mode: Id)
      requires Valid()
      modifies this`resources
      ensures Valid()
      ensures mode == AwaitMode(old(resources), name, output, 0).handle
      ensures resources == AwaitMode(old(resources), name, output, 0).server
    {
      ghost var s0 := resources;
      var attempts := 0;
      var look := GetRRModeByNameSupported(resources.current, name, output);
      LookupModeMeaning(resources.current, name, output);
      while look.NotYetAvailable?
        invariant Valid()
        invariant attempts <= 11
        invariant look == LookupMode(resources.current, name, output) && !look.NotFound?
        invariant AwaitMode(resources, name, output, attempts) == AwaitMode(s0, name, output, 0)
        decreases 11 - attempts
      {
        if attempts > 10 {
          look := NotFound;
          break;
        }
        RefreshResources();
        attempts := attempts + 1;
        look := GetRRModeByNameSupported(resources.current, name, output);
        LookupModeMeaning(resources.current, name, output);
      }
      mode := if look.Resolved? then look.id else NONE;
    }

    /** getOutputConfigs: a section whose mode is "None" is off; otherwise
        each output name is resolved to an output and then to the section's
        mode on it, and the first mode fixes the controller's mode. */
    method GetOutputConfigs(names: seq<string>, modeName: string) returns (configs: OutputConfigs)
      requires Valid()
      modifies this`resources
      ensures Valid()
      ensures (resources, configs) == OutputConfigsFor(old(resources), names, modeName)
    {
      configs := NO_OUTPUTS;
      if modeName == MODE_OFF {
        return;
      }
      ghost var s0 := resources;
      for i := 0 to |names|
        invariant Valid()
        invariant configs.error == 0
        invariant OutputsFrom(resources, names[i..], modeName, configs) == OutputsFrom(s0, names, modeName, NO_OUTPUTS)
      {
        assert names[i..][0] == names[i] && names[i..][1..] == names[i + 1..];
        var output := FindOutput(names[i]);
        if output == NONE {
          configs := configs.(error := -ENODEV);
          return;
        }
        configs := configs.(outputs := configs.outputs + [output]);
        var configMode := FindMode(modeName, output);
        if configMode == NONE {
          configs := configs.(error := -ENODEV);
          return;
        }
        if configs.mode == NONE {
          configs := configs.(mode := configMode);
        } else if configMode != configs.mode {
          configs := configs.(error := -ENODEV, mode := NONE);
          return;
        }
      }
      assert names[|names|..] == [];
      // The source logs a "runtime error" when it gets here with outputs but
      // mode None; that combination cannot occur.
      OutputConfigsShape(s0, names, modeName);
      assert configs.outputs != [] ==> configs.mode != NONE;
    }

    /** Steps 1 and 2 of applyConfiguration after the structural check:
        resolve the sections in profile order, building one CRTConfig per
        section, and stop at the first section that does not resolve. */
    method ResolveControllers(sections: seq<CrtcSection>) returns (controllerConfigs: seq<CRTConfig>, error: int)
      requires Valid()
      modifies this`resources
      ensures Valid()
      ensures ResolveSections(old(resources), sections) == Resolution(resources, controllerConfigs, error)
    {
      ghost var s0 := resources;
      controllerConfigs := [];
      error := 0;
      for i := 0 to |sections|
        invariant Valid()
        invariant ResolveFrom(resources, sections[i..], controllerConfigs) == ResolveSections(s0, sections)
      {
        var section := sections[i];
        assert sections[i..][0] == section && sections[i..][1..] == sections[i + 1..];
        var configs := NO_OUTPUTS;
        if section.outputs != [] {
          configs := GetOutputConfigs(section.outputs, section.mode);
        }
        if configs.error != 0 {
          error := configs.error;
          return;
        }
        controllerConfigs := controllerConfigs + [CRTConfig(section.crtc, section.x, section.y, configs.mode,
                                                            section.rotation, configs.outputs, |configs.outputs|)];
      }
      assert sections[|sections|..] == [];
    }

    /** Steps 3 to 5 of applyConfiguration: under a grab, disable every
        configured controller, sync, resize the screen, sync, enable the
        controllers that have a mode, sync and ungrab. */
    method Commit(controllerConfigs: seq<CRTConfig>, screen: ScreenGeometry)
      modifies this`trace
      ensures trace == old(trace) + ApplyTrace(controllerConfigs, screen)
    {
      trace := trace + [Grab];
      DisableControllers(controllerConfigs);
      trace := trace + [Sync];
      trace := trace + [SetScreenSize(screen.width, screen.height, screen.mmWidth, screen.mmHeight)];
      trace := trace + [Sync];
      EnableControllers(controllerConfigs);
      trace := trace + [Sync];
      trace := trace + [Ungrab];
    }

    /** Step 3: one disable request per configured controller, in order. */
    method DisableControllers(controllerConfigs: seq<CRTConfig>)
      modifies this`trace
      ensures trace == old(trace) + DisablePhase(controllerConfigs)
    {
      ghost var t0 := trace;
      for i := 0 to |controllerConfigs|
        invariant trace == t0 + DisablePhase(controllerConfigs[..i])
      {
        assert controllerConfigs[..i + 1][..i] == controllerConfigs[..i];
        trace := trace + [Disable(controllerConfigs[i].crtc)];
      }
      assert controllerConfigs[..|controllerConfigs|] == controllerConfigs;
    }

    /** Step 5: an enable request for each controller whose mode is not None. */
    method EnableControllers(controllerConfigs: seq<CRTConfig>)
      modifies this`trace
      ensures trace == old(trace) + EnablePhase(controllerConfigs)
    {
      ghost var t0 := trace;
      for i := 0 to |controllerConfigs|
        invariant trace == t0 + EnablePhase(controllerConfigs[..i])
      {
        assert controllerConfigs[..i + 1][..i] == controllerConfigs[..i];
        var controller := controllerConfigs[i];
        if controller.mode != NONE {
          trace := trace + [Enable(controller.crtc, controller.x, controller.y, controller.mode,
                                   controller.rotation, controller.outputs)];
        }
      }
      assert controllerConfigs[..|controllerConfigs|] == controllerConfigs;
    }

    /** applyConfiguration: reconnect, check both profile files, run the
        structural check, resolve every section, and only when all of them
        resolve commit the three phases. */
    method ApplyConfiguration(state: DockState) returns (ok: bool)
      requires Valid() && state != Invalid
      modifies this`resources, this`trace, this`displaySize
      ensures Valid()
      ensures var o := Reconcile(old(resources), files, state);
        ok == o.status.Committed? && resources == o.server && trace == old(trace) + o.trace
      ensures displaySize == old(resources).Refresh().current.screen
    {
      RefreshResources();
      displaySize := resources.current.screen;
      if CONFIG_LOCATION_DOCKED !in files {
        return false;
      }
      if CONFIG_LOCATION_UNDOCKED !in files {
        return false;
      }
      var config := files[ProfilePath(state)];
      var v := CheckControllers(resources.current, config.crtcs);
      if v != Compatible {
        return false;
      }
      var controllerConfigs, error := ResolveControllers(config.crtcs);
      if error != 0 {
        return false;
      }
      Commit(controllerConfigs, config.screen);
      return true;
    }

    /** writeConfigToDisk: reload the resources, capture the screen size the
        connection recorded and one section per live controller, and write
        the profile of the given state. `written` is whether the profile
        store's write succeeds; the profile of the other state is never
        touched. */
    method WriteConfigToDisk(state: DockState, written: bool) returns (ok: bool)
      requires Valid() && state != Invalid
      modifies this`resources, this`files
      ensures Valid()
      ensures resources == old(resources).Refresh()
      ensures WellFormed(resources.current) && WellFormed(resources.current.(screen := displaySize))
      ensures var p := Capture(resources.current.(screen := displaySize));
        ok == (p.Some? && written) &&
        files == if ok then old(files)[ProfilePath(state) := p.value] else old(files)
      ensures forall path :: path != ProfilePath(state) && path in old(files) ==> path in files && files[path] == old(files)[path]
    {
      RefreshResources();
      assert resources.current in resources.Reported();
      var profile := SnapshotTopology(resources.current.(screen := displaySize));
      if profile.None? {
        return false;
      }
      if !written {
        return false;
      }
      files := files[ProfilePath(state) := profile.value];
      return true;
    }
  }
}
