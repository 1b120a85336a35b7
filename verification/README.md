# Cisco 3725 NVRAM codec and network-module bays, in Dafny

A model of two parts of the dynamips Cisco 3725 platform (`dev_c3725.c`):

* **The NVRAM configuration codec.** The router firmware keeps its startup configuration behind a big-endian header in NVRAM:
  * magic numbers `0xF0A5`/`0xABCD` at 0x06/0x08, version `0x0001` at 0x0a, a checksum at 0x0c and format tag `0x0c04` at 0x0e;
  * 32-bit start, end and length words at 0x10, 0x14 and 0x18;
  * the text itself from 0x2c.

  `c3725_nvram_push_config` writes that layout twice: once at the NVRAM offset and once, as a backup, right after it. `c3725_nvram_extract_config` reads it back. `c3725_nvram_check_empty_config` sets bit 0x40 of the configuration register when the NVRAM area is all zero.
* **The network-module bay manager.** Each bay of the router can be:
  * bound to a network-module driver from the platform's driver table (`NM-1FE-TX`, `NM-16ESW`, `GT96100-FE`, `NM-4T`; all but `GT96100-FE` are named in the driver files, see "Drivers.Table" below);
  * initialised by that driver, which leaves a private handle in the bay;
  * given a list of NIO bindings (port id, NIO name). Each binding holds one reference on a NIO of the emulator's registry.

  The model covers:
  * the operations that bind and unbind modules and NIOs;
  * the enable and disable operations, init and shutdown, and shutdown of all bays;
  * the bay EEPROM checks and the PCI slot numbers;
  * the network-module lines that `c3725_save_config` writes.
* **The chassis MAC address.** The default address is built from the VM's MAC prefix, the instance id and the process id. It is written into the mainboard EEPROM where the EEPROM's format version says it lives (`c3725_burn_mac_addr`, `c3725_chassis_set_mac_addr`).

Modules:

| module | file | contents |
|---|---|---|
| `Common` | common.dfy | `Option`, `Result`, first-match search, `%u` decimal rendering |
| `Bytes` | bytes.dfy | bytes, big-endian 16/32-bit fields, byte stores and what they leave behind |
| `Nvram` | nvram.dfy | geometry, layout, checksum, decoder, empty check |
| `NvramPush` | nvram_push.dfy | the encoder (one copy and both copies) and what pushing leaves in the region |
| `NvramProofs` | nvram_proofs.dfy | decoding what was encoded; the empty-text case |
| `Drivers` | drivers.dfy | the driver table and its lookup |
| `Bays` | bays.dfy | bays, the NIO registry, every bay operation, driver calls as a trace |
| `BayProofs` | bay_proofs.dfy | the bay invariant (`Wf`), reference balance, round trips, a worked session |
| `SaveConfig` | save_config.dfy | the saved command list and what replaying it restores |
| `Eeprom` | eeprom.dfy | the mainboard EEPROM template, MAC burning, default chassis MAC |

### How the source is read

**NVRAM**
* A region is the whole mapped ROM file as a byte sequence. A copy starts at offset `p`.
* The chassis constants `C3725_NVRAM_OFFSET` and `C3725_NVRAM_SIZE` live in a header that is not part of this model. They are the fields of a `Geometry` value. Its `Valid()` requires a copy larger than 0x30 bytes and a multiple of 4.
* The firmware checksum `nvram_cksum` is a function parameter.

**Bays**
* The number of bays, `C3725_MAX_NM_BAYS`, is the length of the bay sequence.
* The NIO registry is a map from NIO name to reference count. `netio_acquire` fails exactly for a name that is not in the map.
* Every driver callback (`nm_init`, `nm_shutdown`, `nm_set_nio`, `nm_unset_nio`) is recorded in order in the operation's event list. What the callback returns is a parameter of the operation.

**Behaviour as the code has it.** These descriptions of the platform disagree with the code, and the model follows the code:
* Bay 0 is accepted by `c3725_nm_add_binding`; only the EEPROM operations refuse it.
* Attaching a NIO never tells the driver, even on an initialised bay.
* A shutdown whose driver returns -1 keeps the bay's name and handle.
* `c3725_nm_init` does not check whether the bay is already initialised.
* Decoding what was encoded does not give the text back. The encoder stores the text position as 0x24 and puts the text at 0x2c. The decoder reads from 0x24 + 1 + 8 = 0x2d, one byte later, and copies length − 1 bytes. So decoding an encoded text `T` gives `T[1..]` followed by a NUL.

## Model

| member | source | states |
|---|---|---|
| Nvram.HeaderAndText | dev_c3725.c:128-146 | The stores of the encoder, before the checksum: the magics, version, zero checksum placeholder and tag at 0x06-0x0f, the 32-bit words 0x24, 0x24 + len and len (each taken mod 2^32) at 0x10/0x14/0x18, and the text at 0x2c read back from the result; every byte outside those fields and the text is the region's old byte |
| Nvram.EncoderStoresFacts | dev_c3725.c:128-146 | The encoder's nine stores fit the region, and applying them in source order yields the layout, a zero checksum field and an untouched remainder |
| Nvram.StoredFields | dev_c3725.c:128-146 | Each of the nine fields reads back, big-endian, as the value written |
| Nvram.ChecksumStored | dev_c3725.c:148-151 | Writing the checksum computed over [0x08, size) while the field is zero makes the stored checksum valid, and changes no other byte |
| Nvram.LayoutTransfer | dev_c3725.c:128-146 | A copy's layout survives any change that spares its fields and its text |
| Nvram.ChecksumTransfer | dev_c3725.c:148-151 | A copy's checksum stays valid under any change outside that copy |
| NvramPush.PushConfigPart | dev_c3725.c:120-153 | One copy encoded at `p`: the layout and a valid checksum are there, and every other byte of the region is as before |
| NvramPush.PushConfig | dev_c3725.c:156-176 | Both copies encoded, primary then backup. The backup always has the layout and a valid checksum; the primary does too when the text fits in one copy; nothing outside the two copies' fields and texts changes; copies that were identical before are identical after; both copies decode to the text without its first byte, or are refused for an empty text |
| NvramPush.AfterPush | dev_c3725.c:166-172 | What the two encodes leave, stated for any two adjacent copies: layout, checksums, frame, mirroring and decoding |
| NvramPush.BackupSparesPrimary | dev_c3725.c:169-172 | Writing the backup copy leaves the primary copy byte for byte as it was, when the text fits in one copy |
| NvramPush.FramesCompose | dev_c3725.c:166-172 | Outside the two copies' headers and texts, pushing changes no byte |
| NvramPush.UnwrittenAfterPush | dev_c3725.c:166-172 | Copies that were identical before the push still agree on every byte the encoder does not write |
| NvramPush.CopiesAfterPush | dev_c3725.c:166-172 | After the push the two copies agree on their unwritten bytes (given they did before), so the next lemma applies |
| Nvram.CopiesMatch | dev_c3725.c:166-172 | Two copies with the same layout and valid checksums, which agree on the bytes the encoder does not write, are byte-identical |
| Nvram.WindowsMatch | dev_c3725.c:128-151 | The same, for two stand-alone copies: the encoding is a function of the text and the untouched bytes |
| Nvram.HeaderSame | dev_c3725.c:128-146 | Two copies with the same layout agree on every header byte except the checksum |
| Nvram.WindowLayout | dev_c3725.c:128-151 | A copy inside a region keeps its layout and checksum when cut out on its own |
| NvramPush.CopiesDecode | dev_c3725.c:100-117 | Two copies laid out for the same text decode alike: to the text without its first byte, or to the empty-length refusal |
| Nvram.PlanCopy | dev_c3725.c:86-111 | The decoder's three checks, each as an if-and-only-if, in source order: region too small (header end at or past the region end), wrong magic, or text past the end computed from start + 1 (mod 2^32) + 8 and the stored length. On success the copy lies inside the region |
| Nvram.CopyLengthAsWritten | dev_c3725.c:115-117 | The byte count handed to `memcpy` and returned: nvlen − 1 for nvlen ≥ 1, and 0xFFFFFFFF for nvlen = 0 |
| Nvram.ExtractConfig | dev_c3725.c:66-118 | The decoder with the zero-length case refused. It fails exactly when the three checks (Nvram.PlanCopy) fail, with the same error, and refuses exactly a stored length of 0. Otherwise the count is nvlen − 1, and the buffer is the nvlen − 1 region bytes at the text position (stored start + 1 + 8), then a NUL. The region is a value and is never written |
| NvramProofs.ExtractOfLayout | dev_c3725.c:100-117 | Decoding a copy laid out for a text T of length ≥ 1 gives `T[1..]` followed by NUL, with count `|T|` − 1 |
| NvramProofs.ExtractBothCopies | dev_c3725.c:156-176 | Both the primary and the backup copy decode to `T[1..]` followed by NUL |
| NvramProofs.EmptyLayoutRefused | dev_c3725.c:100-116 | A copy laid out for the empty text passes all three source checks with stored length 0; the corrected decoder refuses it |
| NvramProofs.EmptyLayoutOverrun | dev_c3725.c:108-116 | For that copy the source's copy length 0xFFFFFFFF runs past the end of the region: the copy the bounds check lets through reads out of bounds |
| Nvram.CheckEmptyConfig | dev_c3725.c:179-203 | No ROM device gives -1 and no change. Otherwise the result is 0, and the configuration register gains bit 0x40 exactly when every 32-bit word of the NVRAM area is zero |
| Drivers.GetDriver | dev_c3725.c:424-433 | A driver is found exactly when some table entry has the device type, and it is a table entry with that type |
| Drivers.TableNamesDistinct | dev_c3725.c:53-59 | No two drivers of the table share a device type |
| Drivers.GetDriverOfTable | dev_c3725.c:424-433 | Every table driver is found under its own type |
| Drivers.OnboardDriverKnown | dev_c3725.c:1195-1196 | The onboard type `GT96100-FE` that the platform binds to bay 0 is in the table |
| Bays.GetInfo | dev_c3725.c:385-392 | The bay is returned exactly when its index is below the bay count; after SetDrvInfo it is the old bay with the new handle (BayProofs.DrvInfoReadBack) |
| Bays.GetType | dev_c3725.c:394-401 | The device type is returned exactly for a bay in range that has one; it is the bound type after a successful bind and none after a successful unbind (BayProofs.TypeReadBack) |
| Bays.GetDrvInfo | dev_c3725.c:403-410 | The handle is returned exactly for a bay in range that has one; it is the handle SetDrvInfo last stored there (BayProofs.DrvInfoReadBack) |
| Bays.SetDrvInfo | dev_c3725.c:412-421 | Any bay in range takes the handle (NULL included), and only that bay changes; out of range gives -1 and no change |
| Bays.AddBinding | dev_c3725.c:436-459 | Succeeds exactly when the bay is in range (bay 0 included), has no type, and the type is in the table. It then sets type and driver from the table and changes nothing else; otherwise -1 and no change. No driver call |
| Bays.RemoveBinding | dev_c3725.c:462-487 | Succeeds exactly for a bay in range with no handle and with a type. It then leaves type, driver and bindings empty, releases one reference per binding, and tells the bound driver to drop each port in list order; otherwise -1 and no change |
| Bays.FindNioBinding | dev_c3725.c:490-504 | A binding is found exactly when the bay is in range and some binding has the port; it is one of the bay's bindings, on that port |
| Bays.AddNioBinding | dev_c3725.c:507-545 | Succeeds exactly when the bay is in range, the port is unbound and the NIO exists. It then puts the binding at the head of the list and takes exactly one reference on that NIO, with no other count changed and no driver call; otherwise -1 and no change |
| Bays.RemoveNioBinding | dev_c3725.c:548-577 | Succeeds exactly when the port is bound. It then unlinks the first binding of the port with the others kept in order, releases one reference on its NIO, and calls `nm_unset_nio` exactly when a driver is bound; otherwise -1 and no change |
| Bays.RemoveAllNioBindings | dev_c3725.c:580-602 | For a bay in range the list becomes empty, one reference is released per binding, and the bound driver (if any) is told to drop each port in list order |
| Bays.EnableNio | dev_c3725.c:605-622 | The driver is called exactly when the port is bound and the bay has both driver and handle, and then the driver's reply is returned; state never changes |
| Bays.DisableNio | dev_c3725.c:625-637 | The driver is called exactly for an active bay in range, without looking the port up; state never changes |
| Bays.EnableAllNio | dev_c3725.c:640-656 | On an active bay, one `nm_set_nio` per binding in list order; otherwise -1 and no call |
| Bays.DisableAllNio | dev_c3725.c:659-675 | On an active bay, one `nm_unset_nio` per binding in list order; otherwise -1 and no call |
| Bays.DeviceName | dev_c3725.c:693-699 | The name starts with the type followed by `(`, and has at most strlen(type) + 9 characters |
| Bays.DeviceNameFull | dev_c3725.c:693-699 | For bay numbers below 10^7 the name is exactly `type(bay)` |
| Bays.DeviceNamesDistinct | dev_c3725.c:693-699 | Different bays get different device names |
| Common.DecimalRoundTrip | dev_c3725.c:699 | The `%u` text of a number reads back as that number |
| Bays.NmInit | dev_c3725.c:678-710 | A bay out of range, untyped or driverless is refused with no call and no change, and exactly those bays see no call. Otherwise the name is set and `nm_init` is called with it. A return of exactly 1 is the failure (the name stays set); any other return enables every binding, in list order, provided the driver left a handle |
| Bays.NmShutdown | dev_c3725.c:713-739 | A bay out of range, untyped or driverless is refused with no call. Otherwise an active bay's bindings are withdrawn and `nm_shutdown` is called only when a handle is set. A return of -1 fails with the bay unchanged; otherwise the name and handle are cleared and nothing else changes |
| Bays.ShutdownOne | dev_c3725.c:713-739 | A typed bay's shutdown, seen from the whole router: only that bay changes, as a shutdown leaves it |
| Bays.ShutdownNext | dev_c3725.c:746-751 | One round of the loop extends the shut-down prefix by one bay and its calls |
| Bays.NmShutdownAll | dev_c3725.c:742-754 | Every typed bay is shut down in bay order whatever each driver returns; the result is 0; each bay ends as its own shutdown leaves it; the driver calls are those of each bay in turn |
| Bays.SetEeprom | dev_c3725.c:347-361 | Bay 0 and bays out of range are refused with -1; otherwise the bay takes the EEPROM and only it changes |
| Bays.UnsetEeprom | dev_c3725.c:364-373 | The same bay check; otherwise the bay's EEPROM is removed |
| Bays.CheckEeprom | dev_c3725.c:376-382 | True exactly for a bay other than 0, in range, with an EEPROM; true after SetEeprom and false after UnsetEeprom (BayProofs.EepromPresence) |
| Bays.GetPciDevice | dev_c3725.c:334-344 | Bay 1 is PCI device 0x06, bay 2 is 0x0A, and every other bay is -1 |
| BayProofs.AddBindingKeepsWf | dev_c3725.c:436-459 | Binding a module keeps the bay invariant and every NIO's references outside the bays (`Wf`, `Balanced`) |
| BayProofs.RemoveBindingKeepsWf | dev_c3725.c:462-487 | Unbinding keeps the invariant and the balance: the references released are exactly those the bay held |
| BayProofs.RemoveAllKeepsWf | dev_c3725.c:580-602 | Removing all bindings keeps the invariant and the balance |
| BayProofs.AddNioKeepsWf | dev_c3725.c:507-545 | Attaching a NIO keeps port ids unique in the bay and every reference accounted for |
| BayProofs.RemoveNioKeepsWf | dev_c3725.c:548-577 | Detaching a NIO keeps the invariant and the balance |
| BayProofs.UnlinkKeepsWf | dev_c3725.c:563-574 | Unlinking one binding and releasing its NIO once keeps the invariant and the balance |
| BayProofs.SetDrvInfoKeepsWf | dev_c3725.c:412-421 | Setting a handle keeps the invariant and the balance |
| BayProofs.NmInitKeepsWf | dev_c3725.c:678-710 | Initialising keeps the invariant and the balance |
| BayProofs.NmShutdownKeepsWf | dev_c3725.c:713-739 | Shutting a bay down keeps the invariant and the balance |
| BayProofs.ShutdownAllKeepsWf | dev_c3725.c:742-754 | Shutting all bays down keeps the invariant and the balance |
| BayProofs.SetEepromKeepsWf | dev_c3725.c:347-361 | Setting a bay EEPROM keeps the invariant and the balance |
| BayProofs.UnsetEepromKeepsWf | dev_c3725.c:364-373 | Removing a bay EEPROM keeps the invariant and the balance |
| BayProofs.FreshRouterWf | dev_c3725.c:215 | A router whose bays are all empty satisfies the invariant, whatever the registry holds |
| BayProofs.AddRemoveNioRoundTrip | dev_c3725.c:507-577 | Attaching a NIO and detaching the same port gives back the router, reference counts included |
| BayProofs.AddRemoveNioCalls | dev_c3725.c:558-561 | In that round trip the driver hears one `nm_unset_nio`, and only when a driver is bound |
| BayProofs.ReleaseUndoesAcquire | dev_c3725.c:525-574 | Releasing the reference just taken on a NIO restores the registry |
| BayProofs.RemoveNioFilters | dev_c3725.c:563-571 | In a well-formed router, detaching a port leaves exactly the bay's other bindings, in order |
| BayProofs.UnlinkIsWithout | dev_c3725.c:563-571 | With unique ports, unlinking a binding is filtering its port out of the list |
| BayProofs.BindUnbindRoundTrip | dev_c3725.c:436-487 | Binding a module to a bay with no bindings and no handle, then unbinding it, gives back the router with no driver call |
| BayProofs.InitShutdownRoundTrip | dev_c3725.c:678-739 | Initialising a bay that had no name and no handle, then shutting it down with a driver that does not fail, gives back the router |
| BayProofs.InitShutdownCalls | dev_c3725.c:702-733 | The calls of that round trip: `nm_init`, then only if the driver left a handle, `nm_set_nio` per binding, `nm_unset_nio` per binding and `nm_shutdown` |
| BayProofs.ReleaseAllCount | dev_c3725.c:590-597 | Releasing once per binding takes each NIO's count down by its number of bindings |
| BayProofs.FastEthernetSession | dev_c3725.c:436-739 | A concrete session on an NM-1FE-TX in bay 1: bind, attach a NIO, init, shut down, unbind, with the exact router and driver calls after each step |
| BayProofs.OnboardBaySession | dev_c3725.c:436-459 | Bay 0 takes the onboard GT96100-FE module; a second module in the same bay is refused; an unknown type is refused |
| BayProofs.DrvInfoReadBack | dev_c3725.c:385-421 | GetDrvInfo and GetInfo see exactly the handle SetDrvInfo stored in that bay, and other bays are unaffected |
| BayProofs.TypeReadBack | dev_c3725.c:385-487 | GetType reports the bound type (and GetInfo the table's driver) after a successful bind, and no type, no handle and no bindings after a successful unbind; a refused bind leaves the type as it was |
| BayProofs.EepromPresence | dev_c3725.c:346-382 | CheckEeprom is true after SetEeprom on every bay it accepts, false after UnsetEeprom, and always false on bay 0 and bays out of range |
| SaveConfig.NmConfigLength | dev_c3725.c:299-313 | The saved lines are one per typed bay plus one per NIO binding |
| SaveConfig.ReplayNios | dev_c3725.c:309-312 | Replaying a bay's binding lines prepends the bindings in reverse order and changes no other bay |
| SaveConfig.ReplayBay | dev_c3725.c:299-313 | Replaying one bay's lines on an empty bay restores its type, driver and bindings (reversed) |
| SaveConfig.ReplayUpTo | dev_c3725.c:300-313 | Replaying the lines of the first n bays restores exactly those bays and leaves the rest empty, for any router whose bays are coherent, with unique ports and known NIOs |
| SaveConfig.ReplayNext | dev_c3725.c:300-313 | Bay n - 1's lines, replayed after those of the bays before it, restore that bay too and keep the NIO registry's names |
| SaveConfig.WfSaveable | dev_c3725.c:300-313 | A well-formed router meets what replaying its lines needs: every bound NIO is in the registry |
| SaveConfig.SaveReplayRestores | dev_c3725.c:286-317 | Replaying the network-module lines of a well-formed router on a router with as many empty bays (and all its NIOs known) restores each bay's type, driver and bindings, the bindings in reverse order |
| SaveConfig.RestoredTwice | dev_c3725.c:541-543 | Restoring a restored bay gives back its type, driver and bindings, because each replay reverses the list once |
| SaveConfig.ReplayedSaveable | dev_c3725.c:286-317 | A router rebuilt from saved lines again has coherent bays, unique ports and known NIOs, so it can be saved and replayed |
| SaveConfig.SaveReplayTwice | dev_c3725.c:286-317 | Save, replay on empty bays, save the result and replay again: every bay has its original type, driver and bindings, the bindings in their original order |
| Eeprom.WordBytesRead | dev_c3725.c:33-42 | Each data word of the template reads back big-endian from its two bytes |
| Eeprom.Mainboard | dev_c3725.c:44-48 | The mainboard template is 128 bytes |
| Eeprom.MainboardIsVersion4 | dev_c3725.c:33-42 | The template is format version 4, and has the MAC field tag 0xC3 with length 6 at bytes 73-74 |
| Eeprom.SetRegion | dev_c3725.c:977-983 | A region store writes the data from the offset on, stops at the end of the EEPROM and keeps every other byte |
| Eeprom.SetRegionReadBack | dev_c3725.c:977-983 | The stored bytes read back: the whole data when it fits, its first bytes up to the end of the EEPROM when it does not; bytes before the offset are kept |
| Eeprom.SetRegionLastWins | dev_c3725.c:977-983 | A second store at the same offset, at least as long as the first, hides the first completely |
| Eeprom.SetRegionCommute | dev_c3725.c:977-983 | Stores into disjoint ranges can be done in either order |
| Eeprom.BurnMacAddr | dev_c3725.c:969-996 | The result is -1 exactly when the version byte is neither 0 nor 4, and 0 otherwise. Version 0 writes the address at offset 2; version 4 writes it at the MAC field, only if the field is found. Every byte outside the six written is kept, and the length never changes |
| Eeprom.BurnThenRead | dev_c3725.c:969-996 | A burnt address reads back from where the EEPROM's version says it lives |
| Eeprom.BurnTwice | dev_c3725.c:969-996 | Burning twice is burning the second address only |
| Eeprom.ChassisMac | dev_c3725.c:1075-1084 | The default address is: the MAC prefix byte, the instance id's low byte, the process id truncated to 16 bits high byte first, then two zero bytes |
| Eeprom.ChassisMacSeparatesInstances | dev_c3725.c:1078-1084 | Instances whose ids differ in the low byte get different addresses whatever their process ids |
| Eeprom.InitDefaultEeprom | dev_c3725.c:1075-1088 | The template with the default address burnt in: same length; when the MAC field is found the address is there, every other byte is the template's, and the version byte stays 4; when it is not found the template is unchanged |
| Eeprom.ChassisSetMacAddr | dev_c3725.c:999-1009 | A parse failure gives -1 with the address and EEPROM unchanged. Otherwise the result is 0 even if the burn is refused, the parsed address becomes the router's, and it is burnt |

## Left out

- File and mmap plumbing:
  - the ROM file is a byte sequence given to the functions;
  - `dev_sync` and `vm_mmap_*` opening, creation and closing are not modelled;
  - a failed open (-1) is not modelled;
  - `physmem_copy_u32_from_vm` reads are reads of the sequence.
- NvramPush.PushConfig: requires the region to hold both copies and the text. The source writes the text with `memcpy` without checking, so an over-long text is out-of-bounds writing there. The model states the fitting case only.
- NvramPush.PushConfig: states that the two copies are byte-identical only when they were identical before the push. The encoder never writes bytes 0x00-0x05, 0x1c-0x2b or the bytes after the text, so those keep whatever the ROM file held.
- The `nvram_cksum` algorithm is a function parameter.
- `CheckEmptyConfig` returns the new configuration register instead of writing `vm->conf_reg`. The `printf` is left out.
- Memory-allocation failures are left out: `malloc` in the decoder, the NIO binding and the device name, and `cisco_eeprom_copy` in `c3725_nm_set_eeprom`.
- Nvram.ExtractConfig: the source allocates `*buffer` before its bounds check (dev_c3725.c:103-113), so on the "NVRAM file too small" path it returns -1 with the buffer allocated and `*buffer` set. The model has no heap: a failure carries no buffer, and that leak is not modelled.
- The `cisco_eeprom` helpers are not part of this model:
  - EEPROM byte i is read as the big-endian byte i of the data words;
  - `cisco_eeprom_set_region` writes byte by byte and stops at the end;
  - `cisco_eeprom_v4_find_field` is a function parameter;
  - `cisco_eeprom_valid` is the presence of data.
- Eeprom.BurnMacAddr: requires a non-empty EEPROM. The source reads byte 0 through `cisco_eeprom_get_byte`, whose behaviour on an empty EEPROM is not part of this model.
- `parse_mac_addr` is replaced by its outcome, a parameter. `getpid` and `vm_get_mac_addr_msb` are parameters.
- The rest of `c3725_init_defaults`, after the MAC address, is left out: RAM and ROM sizes and the other defaults.
- Drivers.Table: the driver descriptors live in driver files that are not part of this model. Each driver is its device-type name. Only `GT96100-FE` appears in `dev_c3725.c` (line 1196); the other three names, `NM-1FE-TX`, `NM-16ESW` and `NM-4T`, are the `dev_type` strings of the descriptors in those driver files, which the table at lines 53-59 names only by variable. The `supported` flag and the driver callbacks themselves are not modelled; the callbacks' replies are parameters.
- `netio_acquire` and `netio_release` are the reference-count map. Destroying a NIO whose count reaches 0 belongs to the registry and is not modelled.
- Bays.DeviceName: the name is a string, so truncation by `snprintf` is modelled but the byte buffer is not.
- SaveConfig: the first line (`c3725 create`), `vm_save_config` and the trailing blank line are left out. Each network-module line is a `Command` value rather than formatted text.
- `c3725_cmd_nm_create` and `c3725_cmd_add_nio` are left out: argument splitting and creating NIO descriptors of each network type.
- Left out without modelling:
  - `c3725_nm_show_all_info`, `c3725_nm_show_drivers` and `c3725_show_hardware` (console output);
  - instance creation, deletion and the object registry;
  - platform bring-up, boot and stop (CPU, PCI busses, devices, ELF loading, CPU synchronisation);
  - the hypervisor commands of `hv_c3745.c`.

## Findings

| source | as written | input that shows it | evidently intended | confidence | as-written member | corrected member |
|---|---|---|---|---|---|---|
| dev_c3725.c:98-116 | The stored 32-bit length `nvlen` is checked only against the region end (`cfg_ptr + nvlen > end_ptr`). A length of 0 passes, and `nvlen-1` wraps to 0xFFFFFFFF in `m_uint32_t`. `memcpy` then copies 0xFFFFFFFF bytes into a 1-byte buffer, and `(*buffer)[0xFFFFFFFF]` is written | A copy written by `c3725_nvram_push_config` for an empty configuration (len = 0): the magics are right, the stored length is 0 and the text position is 0x2d | Refuse a stored length of 0 (or return an empty configuration) instead of copying nvlen − 1 bytes | not executed | NvramProofs.EmptyLayoutOverrun (with Nvram.CopyLengthAsWritten) | Nvram.ExtractConfig (with NvramProofs.EmptyLayoutRefused) |
