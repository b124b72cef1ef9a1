/** The values the operator stores and exchanges: what a TopolvmCluster asks of a node, what the
    node reports back, and the lvmd configuration. */
module ClusterTypes {

  datatype Option<+T> = None | Some(value: T)

  // ----- the request -----

  const LOOP := "loop"

  datatype Disk = Disk(name: string, kind: string, auto: bool, path: string, size: nat)

  datatype DeviceClass = DeviceClass(
    className: string, vgName: string, devices: seq<Disk>, isDefault: bool,
    spareGb: nat, stripe: nat, stripeSize: string)

  // ----- the report -----

  datatype DeviceHealth = DeviceUnset | Online | Offline | DeviceError

  datatype DeviceState = DeviceState(name: string, state: DeviceHealth, message: string)

  datatype ClassHealth = ClassUnset | ClassReady | ClassUnReady

  datatype ClassState = ClassState(
    name: string, vgName: string, state: ClassHealth, message: string,
    deviceStates: seq<DeviceState>)

  datatype LoopState = LoopState(
    name: string, file: string, deviceName: string, status: string, message: string)

  datatype Condition = ConditionUnset | Ready | Failure | Unknown | Pending

  datatype NodeStorageState = NodeStorageState(
    node: string, phase: Condition,
    failClasses: seq<ClassState>, successClasses: seq<ClassState>, loops: seq<LoopState>)

  // ----- the lvmd configuration -----

  const LVMD_SOCKET_PATH := "/run/topolvm/lvmd.sock"

  datatype LvmdClass = LvmdClass(
    name: string, volumeGroup: string, spareGb: nat, isDefault: bool, stripe: nat,
    stripeSize: string)

  datatype LvmdConf = LvmdConf(socketName: string, deviceClasses: seq<LvmdClass>)

  /** The ConfigMap of a node, as far as the reconciler goes: status.json and lvmd.yaml. */
  datatype NodeRecord = NodeRecord(status: Option<NodeStorageState>, lvmd: Option<LvmdConf>)
}
