/**
 The network-module driver table of the Cisco 3725 platform and its lookup by
 device type (c3725_nm_get_driver). A driver is identified by its device-type
 name; its callbacks are modelled in the Bays module as calls recorded in a
 trace.
 */
module Drivers {
  import opened Common

  datatype Driver = Driver(devType: string)

  /**
   The NULL-terminated table `nm_drivers`, in table order. The names are the
   `dev_type` strings of the four driver descriptors it points to; only
   GT96100-FE is spelt out in dev_c3725.c, the other three come from the
   driver files, which are not part of this model.
   */
  const Table: seq<Driver> := [Driver("NM-1FE-TX"), Driver("NM-16ESW"), Driver("GT96100-FE"), Driver("NM-4T")]

  /** The onboard FastEthernet ports of the GT96100 system controller, bound to bay 0 at bring-up. */
  const OnboardType: string := "GT96100-FE"

  /** c3725_nm_get_driver: the first driver of the table whose device type matches, if any. */
  function GetDriver(devType: string): (d: Option<Driver>)
    ensures d.Some? <==> exists j :: 0 <= j < |Table| && Table[j].devType == devType
    ensures d.Some? ==> d.value in Table && d.value.devType == devType
  {
    match FindFirst(Table, (d: Driver) => d.devType == devType, 0)
    case None => None
    case Some(j) => Some(Table[j])
  }

  /** No two drivers of the table share a device type, so the first match is the only one. */
  lemma TableNamesDistinct()
    ensures forall i, j :: 0 <= i < j < |Table| ==> Table[i].devType != Table[j].devType
  {
  }

  /** Every driver of the table is found under its own device type. */
  lemma GetDriverOfTable(j: nat)
    requires j < |Table|
    ensures GetDriver(Table[j].devType) == Some(Table[j])
  {
    TableNamesDistinct();
  }

  /** The onboard type resolves to the GT96100 driver. */
  lemma OnboardDriverKnown()
    ensures GetDriver(OnboardType) == Some(Driver(OnboardType))
  {
    GetDriverOfTable(2);
  }
}
