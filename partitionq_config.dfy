/**
 * The QML partition page's controller: the install choice the user picked and
 * the device list it exposes from the partitioning core.
 */
module PartitionConfig {
  import opened PartitionDevices

  /** The five ways of installing; the page starts at `NoChoice`. */
  datatype InstallChoice = NoChoice | Alongside | Erase | Replace | Manual

  datatype Signal = DevicesChanged | PrettyStatusChanged | InstallChoiceChanged

  /** The partitioning core, reduced to the device model it owns. */
  class PartitionCoreModule {
    const deviceModel: DeviceModel

    constructor (deviceModel: DeviceModel)
      ensures this.deviceModel == deviceModel
    {
      this.deviceModel := deviceModel;
    }
  }

  class Config {
    var deviceModel: DeviceModel?
    var core: PartitionCoreModule?
    var installChoice: InstallChoice
    /** The change signals emitted, in order. */
    var signals: seq<Signal>

    constructor ()
      ensures deviceModel == null && core == null
      ensures installChoice == NoChoice && signals == []
    {
      deviceModel := null;
      core := null;
      installChoice := NoChoice;
      signals := [];
    }

    /** init: keeps the core and publishes its device model. */
    method Init(core: PartitionCoreModule)
      modifies this`core, this`deviceModel, this`signals
      ensures this.core == core && Devices() == core.deviceModel
      ensures signals == old(signals) + [DevicesChanged]
    {
      this.core := core;
      deviceModel := core.deviceModel;
      signals := signals + [DevicesChanged];
    }

    function Devices(): DeviceModel?
      reads this
    {
      deviceModel
    }

    /** prettyStatus is a fixed placeholder text. */
    function PrettyStatus(): (s: string)
      ensures s == "hola"
    {
      "hola"
    }

    /** onActivate and finalize have empty bodies. */
    method OnActivate()
      ensures unchanged(this)
    {
    }

    method Finalize()
      ensures unchanged(this)
    {
    }

    function GetInstallChoice(): InstallChoice
      reads this
    {
      installChoice
    }

    /** setInstallChoice: setting the current value does nothing and emits
        nothing; a new value is stored and announced exactly once. */
    method SetInstallChoice(value: InstallChoice)
      modifies this`installChoice, this`signals
      ensures GetInstallChoice() == value
      ensures old(installChoice) == value ==> signals == old(signals)
      ensures old(installChoice) != value ==> signals == old(signals) + [InstallChoiceChanged]
    {
      if installChoice == value {
        return;
      }
      installChoice := value;
      signals := signals + [InstallChoiceChanged];
    }
  }
}
