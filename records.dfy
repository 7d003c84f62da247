/** The records declared in crtc.h: the dock states and their profile
    locations, the resolved per-controller configuration (CRTConfig), the
    result of resolving one profile section (OutputConfigs), and the parsed
    profile the manager reads from a configuration file. */
module Records {
  import opened Hardware

  /** CRTControllerManager::DockState. */
  datatype DockState = Docked | Undocked | Invalid

  const CONFIG_LOCATION_DOCKED: string := "/etc/dockd/docked.conf"
  const CONFIG_LOCATION_UNDOCKED: string := "/etc/dockd/undocked.conf"

  /** The profile file that belongs to a dock state; INVALID has none. */
  function ProfilePath(state: DockState): (path: string)
    requires state != Invalid
    ensures path == CONFIG_LOCATION_DOCKED || path == CONFIG_LOCATION_UNDOCKED
  {
    match state
    case Docked => CONFIG_LOCATION_DOCKED
    case Undocked => CONFIG_LOCATION_UNDOCKED
  }

  /** The two dock states that select a profile use two different files, so
      capturing one state never overwrites the profile of the other. */
  lemma ProfilePathsDistinct(a: DockState, b: DockState)
    requires a != Invalid && b != Invalid
    ensures ProfilePath(a) == ProfilePath(b) <==> a == b
  {
  }

  /** errno's ENODEV; resolution failures are reported as -ENODEV. */
  const ENODEV: int := 19

  /** CRTControllerManager::CRTConfig: the configuration one controller is
      given. `mode == NONE` means the controller stays disabled. */
  datatype CRTConfig = CRTConfig(crtc: Id, x: int, y: int, mode: Id, rotation: int, outputs: seq<Id>, noutputs: nat)

  /** CRTControllerManager::OutputConfigs: the outputs and the common mode a
      profile section resolved to; `error` is 0 on success. */
  datatype OutputConfigs = OutputConfigs(outputs: seq<Id>, mode: Id, error: int)

  /** A fresh OutputConfigs: no outputs, mode None and error 0. */
  const NO_OUTPUTS := OutputConfigs([], NONE, 0)

  /** A parsed "CRTC" section of a profile file. */
  datatype CrtcSection = CrtcSection(crtc: Id, x: int, y: int, rotation: int, mode: string, outputs: seq<string>)

  /** A parsed profile file: its "Screen" section and its "CRTC" sections in
      file order. */
  datatype Profile = Profile(screen: ScreenGeometry, crtcs: seq<CrtcSection>)

  /** The mode string the profile uses for a disabled controller. */
  const MODE_OFF: string := "None"
}
