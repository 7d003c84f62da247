/** Capturing the live layout as a profile (the serialization part of
    writeConfigToDisk): one section per live controller with its id,
    position, rotation, the name of its current mode and the names of its
    outputs, plus the screen size. */
module Snapshot {
  import opened Hardware
  import opened Records
  import opened Lookup
  import opened Validation

  datatype Option<T> = None | Some(value: T)

  /** The name of the LAST global mode with id `id`: the scan of
      writeConfigToDisk does not stop at a match, so a later entry with the
      same id overwrites an earlier one. */
  function ModeName(modes: seq<Mode>, id: Id): Option<string>
  {
    if modes == [] then None
    else if modes[|modes| - 1].id == id then Some(modes[|modes| - 1].name)
    else ModeName(modes[..|modes| - 1], id)
  }

  /** ModeName finds nothing exactly when no mode has the id. */
  lemma {:induction false} ModeNameNone(modes: seq<Mode>, id: Id)
    ensures ModeName(modes, id).None? <==> forall j :: 0 <= j < |modes| ==> modes[j].id != id
    decreases |modes|
  {
    if modes != [] {
      var init := modes[..|modes| - 1];
      ModeNameNone(init, id);
      assert forall j :: 0 <= j < |init| ==> init[j] == modes[j];
    }
  }

  /** When mode `i` has the id and no later mode does, ModeName is its name. */
  lemma {:induction false} ModeNameLast(modes: seq<Mode>, id: Id, i: nat)
    requires i < |modes| && modes[i].id == id
    requires forall j :: i < j < |modes| ==> modes[j].id != id
    ensures ModeName(modes, id) == Some(modes[i].name)
    decreases |modes|
  {
    if i < |modes| - 1 {
      var init := modes[..|modes| - 1];
      assert init[i] == modes[i];
      forall j | i < j < |init| ensures init[j].id != id {
        assert init[j] == modes[j];
      }
      ModeNameLast(init, id, i);
    }
  }

  /** The "mode" entry of a captured section: "None" for a controller with
      no mode, otherwise the name of its mode if the resources list it. */
  function ModeField(t: Topology, mode: Id): Option<string>
  {
    if mode == NONE then Some(MODE_OFF) else ModeName(t.modes, mode)
  }

  /** The mode lookup of writeConfigToDisk, with its flag `modeFound` and
      its scan that does not stop at the first match. */
  method FindModeName(t: Topology, mode: Id) returns (r: Option<string>)
    ensures r == ModeField(t, mode)
  {
    if mode == NONE {
      return Some(MODE_OFF);
    }
    var modeFound := false;
    var name := "";
    for j := 0 to |t.modes|
      invariant (if modeFound then Some(name) else None) == ModeName(t.modes[..j], mode)
    {
      assert t.modes[..j + 1][..j] == t.modes[..j];
      if mode == t.modes[j].id {
        name := t.modes[j].name;
        modeFound := true;
      }
    }
    assert t.modes[..|t.modes|] == t.modes;
    if !modeFound {
      return None;
    }
    return Some(name);
  }

  /** The name XRRGetOutputInfo reports for a listed output. */
  function OutputName(t: Topology, id: Id): string
    requires HasOutput(t, id)
  {
    t.outputs[FirstOutputWithId(t.outputs, id)].name
  }

  /** Every id in `ids` is a listed output. */
  predicate AllListed(t: Topology, ids: seq<Id>)
  {
    forall k :: 0 <= k < |ids| ==> HasOutput(t, ids[k])
  }

  /** The "outputs" entry of a captured section: the names of the
      controller's outputs, in the controller's order. */
  function OutputNames(t: Topology, ids: seq<Id>): (names: seq<string>)
    requires AllListed(t, ids)
    ensures |names| == |ids|
    ensures forall k :: 0 <= k < |ids| ==> names[k] == OutputName(t, ids[k])
  {
    if ids == [] then [] else OutputNames(t, ids[..|ids| - 1]) + [OutputName(t, ids[|ids| - 1])]
  }

  /** The output-name loop of writeConfigToDisk. */
  method CollectOutputNames(t: Topology, ids: seq<Id>) returns (names: seq<string>)
    requires AllListed(t, ids)
    ensures names == OutputNames(t, ids)
  {
    names := [];
    for k := 0 to |ids|
      invariant names == OutputNames(t, ids[..k])
    {
      assert ids[..k + 1][..k] == ids[..k];
      names := names + [OutputName(t, ids[k])];
    }
    assert ids[..|ids|] == ids;
  }

  /** The section captured for controller `c` once its mode name is known. */
  function SectionOf(t: Topology, c: Controller, modeName: string): CrtcSection
    requires AllListed(t, c.outputs)
  {
    CrtcSection(c.id, c.x, c.y, c.rotation, modeName, OutputNames(t, c.outputs))
  }

  /** The controllers of `t` drive listed outputs only. */
  lemma WellFormedListed(t: Topology, i: nat)
    requires WellFormed(t) && i < |t.crtcs|
    ensures AllListed(t, t.crtcs[i].outputs)
  {
  }

  /** The sections captured for the first `n` controllers, or None as soon
      as one of them has a mode the resources do not list. */
  function CaptureControllers(t: Topology, n: nat): Option<seq<CrtcSection>>
    requires WellFormed(t) && n <= |t.crtcs|
  {
    if n == 0 then Some([])
    else
      match CaptureControllers(t, n - 1)
      case None => None
      case Some(secs) =>
        var c := t.crtcs[n - 1];
        WellFormedListed(t, n - 1);
        match ModeField(t, c.mode)
        case None => None
        case Some(name) => Some(secs + [SectionOf(t, c, name)])
  }

  /** The profile writeConfigToDisk serializes, or None when it fails. */
  function Capture(t: Topology): Option<Profile>
    requires WellFormed(t)
  {
    match CaptureControllers(t, |t.crtcs|)
    case None => None
    case Some(secs) => Some(Profile(t.screen, secs))
  }

  /** Steps 2 and 3 of writeConfigToDisk: the screen section, then one
      section per live controller; it gives up at the first controller
      whose mode has no name. */
  method SnapshotTopology(t: Topology) returns (p: Option<Profile>)
    requires WellFormed(t)
    ensures p == Capture(t)
  {
    var sections: seq<CrtcSection> := [];
    for i := 0 to |t.crtcs|
      invariant CaptureControllers(t, i) == Some(sections)
    {
      var info := t.crtcs[i];
      var mode := FindModeName(t, info.mode);
      if mode.None? {
        CaptureFailsOnward(t, i + 1);
        return None;
      }
      WellFormedListed(t, i);
      var names := CollectOutputNames(t, info.outputs);
      sections := sections + [CrtcSection(info.id, info.x, info.y, info.rotation, mode.value, names)];
    }
    return Some(Profile(t.screen, sections));
  }

  /** Once one controller fails, the capture of every longer prefix fails. */
  lemma {:induction false} CaptureFailsOnward(t: Topology, n: nat)
    requires WellFormed(t) && n <= |t.crtcs| && CaptureControllers(t, n).None?
    ensures Capture(t).None?
    decreases |t.crtcs| - n
  {
    if n < |t.crtcs| {
      CaptureFailsOnward(t, n + 1);
    }
  }

  /** The capture of a prefix succeeds exactly when every controller in it
      has a mode field. */
  lemma {:induction false} CaptureControllersSome(t: Topology, n: nat)
    requires WellFormed(t) && n <= |t.crtcs|
    ensures CaptureControllers(t, n).Some? <==> forall i :: 0 <= i < n ==> ModeField(t, t.crtcs[i].mode).Some?
    decreases n
  {
    if n > 0 {
      CaptureControllersSome(t, n - 1);
    }
  }

  /** A successful capture of a prefix holds the sections of its
      controllers in resource order. */
  lemma {:induction false} CaptureControllersSections(t: Topology, n: nat)
    requires WellFormed(t) && n <= |t.crtcs| && CaptureControllers(t, n).Some?
    ensures var secs := CaptureControllers(t, n).value;
      |secs| == n &&
      forall i :: 0 <= i < n ==>
        ModeField(t, t.crtcs[i].mode) == Some(secs[i].mode) && secs[i] == SectionOf(t, t.crtcs[i], secs[i].mode)
    decreases n
  {
    if n > 0 {
      CaptureControllersSections(t, n - 1);
      var prev := CaptureControllers(t, n - 1).value;
      var secs := CaptureControllers(t, n).value;
      assert secs == prev + [secs[n - 1]];
      forall i | 0 <= i < n - 1
        ensures ModeField(t, t.crtcs[i].mode) == Some(secs[i].mode) && secs[i] == SectionOf(t, t.crtcs[i], secs[i].mode)
      {
        assert secs[i] == prev[i];
      }
    }
  }

  /** What writeConfigToDisk captures: it fails exactly when some live
      controller's mode is missing from the resources; otherwise the profile
      holds the screen size and, for every live controller in order, a
      section with its id, position and rotation, "None" for no mode or the
      name of the last mode entry with its id, and the names of its outputs
      in order. */
  lemma CaptureShape(t: Topology)
    requires WellFormed(t)
    ensures Capture(t).Some? <==>
              forall i :: 0 <= i < |t.crtcs| ==> t.crtcs[i].mode == NONE || ModeName(t.modes, t.crtcs[i].mode).Some?
    ensures Capture(t).Some? ==>
              var p := Capture(t).value;
              p.screen == t.screen && |p.crtcs| == |t.crtcs| &&
              forall i :: 0 <= i < |t.crtcs| ==>
                var c, sec := t.crtcs[i], p.crtcs[i];
                sec.crtc == c.id && sec.x == c.x && sec.y == c.y && sec.rotation == c.rotation &&
                (c.mode == NONE ==> sec.mode == MODE_OFF) &&
                (c.mode != NONE ==> Some(sec.mode) == ModeName(t.modes, c.mode)) &&
                |sec.outputs| == |c.outputs| &&
                (forall k :: 0 <= k < |c.outputs| ==> sec.outputs[k] == OutputName(t, c.outputs[k]))
  {
    CaptureControllersSome(t, |t.crtcs|);
    if Capture(t).Some? {
      CaptureControllersSections(t, |t.crtcs|);
    }
  }

  /** A captured profile names every live controller once, so with distinct
      controller ids it passes the structural check of applyConfiguration
      against the topology it was captured from. */
  lemma CaptureValidates(t: Topology)
    requires WellFormed(t) && Distinct(CrtcIds(t)) && Capture(t).Some?
    ensures ValidateProfile(t, Capture(t).value.crtcs) == Compatible
  {
    CaptureControllersSections(t, |t.crtcs|);
    var secs := Capture(t).value.crtcs;
    assert SectionIds(secs) == CrtcIds(t);
    ValidateDistinct(t, secs);
  }
}
