/** The X server's RandR screen resources as the display manager sees them:
    controllers (CRTCs), outputs, global modes and the screen size, plus the
    sequence of topologies that later refreshes of the resources will report. */
module Hardware {

  /** An X resource id (RRCrtc, RROutput, RRMode). Ids are unbounded naturals. */
  type Id = nat

  /** X's `None`: the id 0, "no mode" or "no output". */
  const NONE: Id := 0

  /** RandR's RR_Rotate_0, the rotation a disabled controller is given. */
  const RR_ROTATE_0: int := 1

  /** One scan-out pipeline, as XRRGetCrtcInfo reports it. */
  datatype Controller = Controller(id: Id, x: int, y: int, mode: Id, rotation: int, outputs: seq<Id>)

  /** One connector, as XRRGetOutputInfo reports it. */
  datatype Output = Output(id: Id, name: string, connected: bool, modes: seq<Id>)

  /** One entry of the screen resources' global mode list. */
  datatype Mode = Mode(id: Id, name: string)

  /** Pixel and millimetre size of the virtual screen. */
  datatype ScreenGeometry = ScreenGeometry(width: int, height: int, mmWidth: int, mmHeight: int)

  /** One reading of the screen resources (XRRGetScreenResources) together
      with the display's current size. */
  datatype Topology = Topology(crtcs: seq<Controller>, outputs: seq<Output>, modes: seq<Mode>, screen: ScreenGeometry)

  /** Some output of `t` has id `id`. */
  predicate HasOutput(t: Topology, id: Id)
  {
    exists j :: 0 <= j < |t.outputs| && t.outputs[j].id == id
  }

  /** What the X server guarantees of the resources it reports: every output
      a controller drives is one of the reported outputs. */
  predicate WellFormed(t: Topology)
  {
    forall i, k :: 0 <= i < |t.crtcs| && 0 <= k < |t.crtcs[i].outputs| ==> HasOutput(t, t.crtcs[i].outputs[k])
  }

  /** The ids of the live controllers, in the order the resources list them. */
  function CrtcIds(t: Topology): (ids: seq<Id>)
    ensures |ids| == |t.crtcs|
    ensures forall i :: 0 <= i < |ids| ==> ids[i] == t.crtcs[i].id
  {
    seq(|t.crtcs|, i requires 0 <= i < |t.crtcs| => t.crtcs[i].id)
  }

  /** No id occurs twice in `ids`. */
  predicate Distinct(ids: seq<Id>)
  {
    forall i, j :: 0 <= i < j < |ids| ==> ids[i] != ids[j]
  }

  /** The X server as an oracle: the topology the manager currently holds,
      and the topologies that successive refreshes of the resources will
      return. Once `upcoming` is exhausted the hardware has settled and a
      refresh returns the same topology again. */
  datatype Server = Server(current: Topology, upcoming: seq<Topology>) {

    /** Free the resources and fetch them again. */
    function Refresh(): (s: Server)
      ensures |s.upcoming| == if upcoming == [] then 0 else |upcoming| - 1
      ensures upcoming != [] ==> s.current == upcoming[0]
    {
      if upcoming == [] then this else Server(upcoming[0], upcoming[1..])
    }

    /** `n` refreshes in a row. */
    function RefreshN(n: nat): Server
      decreases n
    {
      if n == 0 then this else Refresh().RefreshN(n - 1)
    }

    /** The topologies this server reports now or on a later refresh. */
    function Reported(): seq<Topology>
    {
      [current] + upcoming
    }

    /** A refresh reports nothing the server was not going to report. */
    lemma RefreshReportsNothingNew()
      ensures forall t :: t in Refresh().Reported() ==> t in Reported()
    {
      if upcoming != [] {
        forall t | t in Refresh().Reported() ensures t in Reported() {
          assert Refresh().Reported() == upcoming;
          assert Reported()[1..] == upcoming;
        }
      }
    }

    /** No further change of the hardware is coming. */
    predicate Settled()
    {
      upcoming == []
    }
  }
}
