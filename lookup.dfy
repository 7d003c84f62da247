/** Name-to-handle lookups against one reading of the screen resources:
    getRROutputByName, isOutputModeSupported and getRRModeByNameSupported.
    Each scan is a method checked against a pure definition. */
module Lookup {
  import opened Hardware

  /** The outcome of one lookup. The source encodes `NotYetAvailable` as the
      id (XID)-EAGAIN; a datatype cannot collide with a real id. */
  datatype Lookup = Resolved(id: Id) | NotYetAvailable | NotFound

  /** `i` is the first output of `outs` called `name`. */
  predicate FirstNamed(outs: seq<Output>, name: string, i: int)
  {
    0 <= i < |outs| && outs[i].name == name &&
    forall j :: 0 <= j < i ==> outs[j].name != name
  }

  /** Index of the first output called `name`, or |outs| when there is none. */
  function FirstOutputNamed(outs: seq<Output>, name: string): (i: nat)
    ensures i <= |outs|
    ensures i < |outs| ==> FirstNamed(outs, name, i)
    ensures i == |outs| ==> forall j :: 0 <= j < |outs| ==> outs[j].name != name
  {
    if outs == [] then 0
    else if outs[0].name == name then 0
    else 1 + FirstOutputNamed(outs[1..], name)
  }

  /** The output lookup of getRROutputByName: the first output with the
      name decides; connected gives its id, disconnected asks to try again,
      and a name no output carries is not found. */
  function LookupOutput(t: Topology, name: string): (r: Lookup)
    ensures r.NotFound? <==> forall j :: 0 <= j < |t.outputs| ==> t.outputs[j].name != name
    ensures r.Resolved? ==>
              exists j :: 0 <= j < |t.outputs| && t.outputs[j].name == name && t.outputs[j].connected && t.outputs[j].id == r.id
    ensures r.NotYetAvailable? ==> exists j :: 0 <= j < |t.outputs| && t.outputs[j].name == name && !t.outputs[j].connected
  {
    var i := FirstOutputNamed(t.outputs, name);
    if i == |t.outputs| then NotFound
    else if t.outputs[i].connected then Resolved(t.outputs[i].id)
    else NotYetAvailable
  }

  /** The output lookup reports NotFound exactly when no output has the
      name, and otherwise what the first output with the name says. */
  lemma LookupOutputMeaning(t: Topology, name: string)
    ensures LookupOutput(t, name).NotFound? <==> forall j :: 0 <= j < |t.outputs| ==> t.outputs[j].name != name
    ensures forall i {:trigger FirstNamed(t.outputs, name, i)} :: FirstNamed(t.outputs, name, i) ==>
              LookupOutput(t, name) == if t.outputs[i].connected then Resolved(t.outputs[i].id) else NotYetAvailable
  {
  }

  /** Index of the first output with id `id`, or |outs| when there is none. */
  function FirstOutputWithId(outs: seq<Output>, id: Id): (i: nat)
    ensures i <= |outs|
    ensures i < |outs| ==> outs[i].id == id && forall j :: 0 <= j < i ==> outs[j].id != id
    ensures i == |outs| ==> forall j :: 0 <= j < |outs| ==> outs[j].id != id
  {
    if outs == [] then 0
    else if outs[0].id == id then 0
    else 1 + FirstOutputWithId(outs[1..], id)
  }

  /** The mode list XRRGetOutputInfo reports for output `output`; an id the
      resources do not list supports no mode. */
  function OutputModes(t: Topology, output: Id): seq<Id>
  {
    var j := FirstOutputWithId(t.outputs, output);
    if j < |t.outputs| then t.outputs[j].modes else []
  }

  /** An output's mode list is that of the first output with its id; an id
      the resources do not list has none. */
  lemma OutputModesMeaning(t: Topology, output: Id, j: nat)
    requires j < |t.outputs| && t.outputs[j].id == output
    requires forall k :: 0 <= k < j ==> t.outputs[k].id != output
    ensures OutputModes(t, output) == t.outputs[j].modes
  {
  }

  /** Mode `m` has the name `name` and is in the output's list `supported`. */
  predicate Matches(m: Mode, name: string, supported: seq<Id>)
  {
    m.name == name && m.id in supported
  }

  /** `i` is the first global mode that matches. */
  predicate FirstMatch(modes: seq<Mode>, name: string, supported: seq<Id>, i: int)
  {
    0 <= i < |modes| && Matches(modes[i], name, supported) &&
    forall j :: 0 <= j < i ==> !Matches(modes[j], name, supported)
  }

  /** Index of the first global mode that matches, or |modes| when none does. */
  function FirstMatchingMode(modes: seq<Mode>, name: string, supported: seq<Id>): (i: nat)
    ensures i <= |modes|
    ensures i < |modes| ==> FirstMatch(modes, name, supported, i)
    ensures i == |modes| ==> forall j :: 0 <= j < |modes| ==> !Matches(modes[j], name, supported)
  {
    if modes == [] then 0
    else if Matches(modes[0], name, supported) then 0
    else 1 + FirstMatchingMode(modes[1..], name, supported)
  }

  /** The mode lookup of getRRModeByNameSupported: the first global mode
      with the name that the output itself supports; otherwise try again.
      It never reports NotFound. */
  function LookupMode(t: Topology, name: string, output: Id): (r: Lookup)
    ensures !r.NotFound?
    ensures r.Resolved? ==>
              exists i :: 0 <= i < |t.modes| && Matches(t.modes[i], name, OutputModes(t, output)) && t.modes[i].id == r.id
    ensures r.NotYetAvailable? ==> forall i :: 0 <= i < |t.modes| ==> !Matches(t.modes[i], name, OutputModes(t, output))
  {
    var i := FirstMatchingMode(t.modes, name, OutputModes(t, output));
    if i < |t.modes| then Resolved(t.modes[i].id) else NotYetAvailable
  }

  /** The mode lookup never reports NotFound; it resolves exactly when some
      global mode with the name is in the output's mode list, and then to
      the first such mode. */
  lemma LookupModeMeaning(t: Topology, name: string, output: Id)
    ensures !LookupMode(t, name, output).NotFound?
    ensures LookupMode(t, name, output).Resolved? <==>
              exists i :: 0 <= i < |t.modes| && Matches(t.modes[i], name, OutputModes(t, output))
    ensures forall i {:trigger FirstMatch(t.modes, name, OutputModes(t, output), i)} ::
              FirstMatch(t.modes, name, OutputModes(t, output), i) ==> LookupMode(t, name, output) == Resolved(t.modes[i].id)
  {
  }

  /** getRROutputByName: scan the outputs, return at the first name match. */
  method GetRROutputByName(t: Topology, name: string) returns (r: Lookup)
    ensures r == LookupOutput(t, name)
  {
    var i := 0;
    while i < |t.outputs|
      invariant 0 <= i <= |t.outputs|
      invariant forall j :: 0 <= j < i ==> t.outputs[j].name != name
    {
      var info := t.outputs[i];
      if info.name == name {
        assert FirstNamed(t.outputs, name, i);
        LookupOutputMeaning(t, name);
        if !info.connected {
          return NotYetAvailable;
        }
        return Resolved(info.id);
      }
      i := i + 1;
    }
    LookupOutputMeaning(t, name);
    return NotFound;
  }

  /** isOutputModeSupported: scan the output's own mode list. */
  method IsOutputModeSupported(t: Topology, output: Id, mode: Id) returns (b: bool)
    ensures b <==> mode in OutputModes(t, output)
  {
    var modes := OutputModes(t, output);
    var i := 0;
    while i < |modes|
      invariant 0 <= i <= |modes|
      invariant mode !in modes[..i]
    {
      if mode == modes[i] {
        return true;
      }
      assert modes[..i + 1] == modes[..i] + [modes[i]];
      i := i + 1;
    }
    assert modes[..i] == modes;
    return false;
  }

  /** getRRModeByNameSupported: scan the global modes for the first one with
      the name that the output supports. */
  method GetRRModeByNameSupported(t: Topology, name: string, output: Id) returns (r: Lookup)
    ensures r == LookupMode(t, name, output)
  {
    ghost var supported := OutputModes(t, output);
    var i := 0;
    while i < |t.modes|
      invariant 0 <= i <= |t.modes|
      invariant forall j :: 0 <= j < i ==> !Matches(t.modes[j], name, supported)
    {
      var info := t.modes[i];
      if name == info.name {
        var ok := IsOutputModeSupported(t, output, info.id);
        if ok {
          assert FirstMatch(t.modes, name, supported, i);
          LookupModeMeaning(t, name, output);
          return Resolved(info.id);
        }
      }
      i := i + 1;
    }
    LookupModeMeaning(t, name, output);
    return NotYetAvailable;
  }
}
