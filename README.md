# Host information and control utilities of Lenovo Legion Toolkit, in Dafny

This project models the decision logic in `LenovoLegionToolkit.Lib/Utils/OS.cs`. That file holds
the toolkit's static `OS` helpers and the `IsNVidia` extension:

- **Administrative commands.** `Restart`, `RestartDevice` and `SetPowerPlan` each launch one
  external tool (`shutdown`, `pnputil`, `powercfg`) through the shell. `GetNVidiaInformation`
  launches `nvidia-smi` directly and captures its output. Each one is modelled as a
  `Commands.Command` value: the launch mode, the executable and the exact argument string.
- **GPU report reading.** `GetNVidiaInformation` reads the `nvidia-smi -q -x` XML report.
  `SmiReport.ExtractNVidiaInformation` starts from the already-parsed element tree. It follows
  `nvidia_smi_log/gpu` to `display_active` and to `processes/process_info*/process_name`. It
  compares the display flag with `"Enabled"`, counts the entries and keeps the final path
  component of each process name. Where the source would dereference null, the model returns
  `Failure` with the name of the missing element. The first of those lookups to fail decides.
- **Platform inventory.** `GetMachineInformation` returns the `Vendor` and `Version` of the first
  `Win32_ComputerSystemProduct` record, or the struct's default when there is none.
  `GetVideoControllersInformation` yields one card per `Win32_VideoController` record. Both are
  modelled as methods whose loops follow the source's `foreach`. Each is proved equal to a
  specification function over the sequence of records the query returns.
- **NVIDIA test.** `HostInfo.IsNVidia` decides whether a card's manufacturer contains
  `"nvidia"` in any letter case.

Modules: `Wrappers` (Option, and Result with the name of the missing lookup), `AsciiText`
(ordinal case-insensitive search), `FilePath` (`Path.GetFileName`), `HostInfo` (the three
records and `IsNVidia`), `Commands`, `SmiReport` and `Inventory`.

- The code catches no exception. In the modelled logic, every failure is a lookup that finds
  nothing (a null dereference, or a WMI property the class lacks). Each is modelled as one
  `Failure` that names the missing element or property. The other exceptions come from the parts
  listed under "## Left out".
- The code embeds the device id and the power-plan GUID verbatim, without escaping;
  `Commands.RestartDeviceQuoteNotEscaped` records what that means for a quote.

## Model

| member | source | states |
|---|---|---|
| `AsciiText.ContainsIgnoringCase` | LenovoLegionToolkit.Lib/Utils/OS.cs:31 | the left-to-right scan finds a match exactly when the pattern occurs, ignoring case, at some offset of the string |
| `AsciiText.ContainsIgnoresCase` | LenovoLegionToolkit.Lib/Utils/OS.cs:31 | two strings that differ only in the case of their letters contain the pattern equally |
| `HostInfo.IsNVidia` | LenovoLegionToolkit.Lib/Utils/OS.cs:31 | a card is NVIDIA exactly when some six-character window of its manufacturer folds to "nvidia" |
| `HostInfo.IsNVidiaIgnoresCase` | LenovoLegionToolkit.Lib/Utils/OS.cs:31 | changing the letter case of the manufacturer never changes the verdict |
| `HostInfo.NotNVidiaWithoutV` | LenovoLegionToolkit.Lib/Utils/OS.cs:31 | a manufacturer with no 'v' or 'V' is never NVIDIA |
| `HostInfo.IsNVidiaExamples` | LenovoLegionToolkit.Lib/Utils/OS.cs:31 | "NVIDIA" and "NvIdIa Corporation" are NVIDIA; "Intel Corporation" and "NVIDI" are not |
| `Commands.Restart` | LenovoLegionToolkit.Lib/Utils/OS.cs:36 | always `shutdown` with exactly `-r -t 0`, launched through the shell |
| `Commands.RestartDevice` | LenovoLegionToolkit.Lib/Utils/OS.cs:38 | `pnputil` with arguments `-restart-device "`, then the id verbatim, then `"`, launched through the shell |
| `Commands.SetPowerPlan` | LenovoLegionToolkit.Lib/Utils/OS.cs:40 | `powercfg` with arguments `-setactive ` followed by the GUID verbatim, launched through the shell |
| `Commands.NVidiaQuery` | LenovoLegionToolkit.Lib/Utils/OS.cs:44 | `nvidia-smi -q -x`, launched directly with its output captured |
| `Commands.RestartDeviceRoundTrip` | LenovoLegionToolkit.Lib/Utils/OS.cs:38 | the device id is recovered unchanged from the argument string |
| `Commands.RestartDeviceInjective` | LenovoLegionToolkit.Lib/Utils/OS.cs:38 | distinct device ids give distinct commands |
| `Commands.SetPowerPlanInjective` | LenovoLegionToolkit.Lib/Utils/OS.cs:40 | distinct GUIDs give distinct commands |
| `Commands.RestartDeviceExample` | LenovoLegionToolkit.Lib/Utils/OS.cs:38 | id `ACPI\VEN_123` gives exactly `-restart-device "ACPI\VEN_123"` |
| `Commands.RestartDeviceQuoteNotEscaped` | LenovoLegionToolkit.Lib/Utils/OS.cs:38 | a quote in the id reaches the argument string unescaped, before the closing quote |
| `FilePath.FileName` | LenovoLegionToolkit.Lib/Utils/OS.cs:51 | the name is a suffix of the path, has no `\` or `/`, and is either the whole path or preceded by a separator |
| `FilePath.FileNameUnique` | LenovoLegionToolkit.Lib/Utils/OS.cs:51 | those three properties single out the file name |
| `FilePath.FileNameOfPlainName` | LenovoLegionToolkit.Lib/Utils/OS.cs:51 | a name without separators is left whole |
| `FilePath.FileNameIdempotent` | LenovoLegionToolkit.Lib/Utils/OS.cs:51 | taking the file name twice equals taking it once |
| `FilePath.FileNameFacts` | LenovoLegionToolkit.Lib/Utils/OS.cs:51 | one file name has no separator, is a suffix, is the original when that has no separator, and is a fixed point |
| `FilePath.FileNameExampleWindows` | LenovoLegionToolkit.Lib/Utils/OS.cs:51 | `C:\Windows\System32\foo.exe` gives `foo.exe` |
| `FilePath.FileNameExampleUnix` | LenovoLegionToolkit.Lib/Utils/OS.cs:51 | `/usr/bin/Xorg` gives `Xorg` |
| `FilePath.FileNameExampleEdges` | LenovoLegionToolkit.Lib/Utils/OS.cs:51 | a bare name stays whole; a path ending in a separator gives the empty name |
| `SmiReport.FirstIndexNamed` | LenovoLegionToolkit.Lib/Utils/OS.cs:47-49 | the index found is the first element with that name, or the end when none has it |
| `SmiReport.Root` | LenovoLegionToolkit.Lib/Utils/OS.cs:47 | the document's root is found exactly when its name matches; otherwise the lookup fails naming it |
| `SmiReport.Child` | LenovoLegionToolkit.Lib/Utils/OS.cs:47-49 | a child is found exactly when one has that name; it is a child with that name; otherwise the lookup fails naming it |
| `SmiReport.ChildIsFirst` | LenovoLegionToolkit.Lib/Utils/OS.cs:47-49 | the child found is the first one in document order with that name |
| `SmiReport.ElementsNamed` | LenovoLegionToolkit.Lib/Utils/OS.cs:49 | exactly the elements with that name are selected, and never more than there are |
| `SmiReport.ElementsNamedAppend` | LenovoLegionToolkit.Lib/Utils/OS.cs:49 | selection keeps document order: it distributes over concatenation |
| `SmiReport.ProcessNameValues` | LenovoLegionToolkit.Lib/Utils/OS.cs:51 | succeeds exactly when every entry has a `process_name`; then one value per entry, in order, the text of that child; otherwise fails at `process_name` |
| `SmiReport.FileNames` | LenovoLegionToolkit.Lib/Utils/OS.cs:51 | one file name per value, in order |
| `SmiReport.ExtractNVidiaInformation` | LenovoLegionToolkit.Lib/Utils/OS.cs:46-58 | the count always equals the number of names; a failure names one of the five elements the source dereferences |
| `SmiReport.ExtractionReadsReport` | LenovoLegionToolkit.Lib/Utils/OS.cs:47-57 | given gpu, display_active and processes, succeeds exactly when every entry has a process_name; display is active iff its text is exactly "Enabled"; the count is the number of `process_info` entries; name i is the file name of entry i's process_name |
| `SmiReport.ExtractedNamesAreFileNames` | LenovoLegionToolkit.Lib/Utils/OS.cs:51 | each extracted name has no separator, is a suffix of its process_name, equals it when it has no separator, and is a fixed point of FileName |
| `SmiReport.ExtractedNameAt` | LenovoLegionToolkit.Lib/Utils/OS.cs:51 | name i of a successful extraction is the file name of entry i's `process_name` |
| `SmiReport.MissingLogFails` | LenovoLegionToolkit.Lib/Utils/OS.cs:47 | a root not called `nvidia_smi_log` makes the extraction fail there |
| `SmiReport.MissingGpuFails` | LenovoLegionToolkit.Lib/Utils/OS.cs:47 | no `gpu` child makes the extraction fail there |
| `SmiReport.MissingDisplayActiveFails` | LenovoLegionToolkit.Lib/Utils/OS.cs:48 | no `display_active` makes the extraction fail there |
| `SmiReport.MissingProcessesFails` | LenovoLegionToolkit.Lib/Utils/OS.cs:49 | no `processes` makes the extraction fail there |
| `SmiReport.MissingProcessNameFails` | LenovoLegionToolkit.Lib/Utils/OS.cs:51 | any entry without `process_name` makes the extraction fail there |
| `SmiReport.ExtractionOfReport` | LenovoLegionToolkit.Lib/Utils/OS.cs:46-58 | a well-formed report yields its flag, its entry count and the file names of its paths in order |
| `SmiReport.FileNamesExample` | LenovoLegionToolkit.Lib/Utils/OS.cs:51 | two full paths map to their final components, in order |
| `SmiReport.ExtractionExampleFullPaths` | LenovoLegionToolkit.Lib/Utils/OS.cs:46-58 | a report with two full paths gives active display, count 2 and names `foo.exe`, `Xorg` |
| `SmiReport.ExtractionExampleInactive` | LenovoLegionToolkit.Lib/Utils/OS.cs:48-51 | "Disabled" and "enabled" both give an inactive display; no entries give count 0 and no names |
| `SmiReport.ExtractionExampleNoGpu` | LenovoLegionToolkit.Lib/Utils/OS.cs:47 | a report without a gpu element fails at `gpu` rather than yielding a result |
| `Inventory.Property` | LenovoLegionToolkit.Lib/Utils/OS.cs:67-68 | a property is read exactly when present, as its value; otherwise the read fails naming it |
| `Inventory.MachineOf` | LenovoLegionToolkit.Lib/Utils/OS.cs:67-73 | a record gives vendor = `Vendor` and model = `Version` exactly when both are present; otherwise fails at the first one missing |
| `Inventory.MachineInformationOf` | LenovoLegionToolkit.Lib/Utils/OS.cs:62-76 | succeeds exactly when there is no record or the first has `Vendor` and `Version`; no record leaves both fields unset; otherwise the fields are the first record's `Vendor` and `Version` |
| `Inventory.GetMachineInformation` | LenovoLegionToolkit.Lib/Utils/OS.cs:62-76 | the foreach with early return computes MachineInformationOf |
| `Inventory.LaterRecordsIgnored` | LenovoLegionToolkit.Lib/Utils/OS.cs:65-74 | records after the first never change the result |
| `Inventory.NoRecordGivesDefault` | LenovoLegionToolkit.Lib/Utils/OS.cs:75 | no record gives vendor and model unset, not a failure |
| `Inventory.CardOf` | LenovoLegionToolkit.Lib/Utils/OS.cs:82-88 | a record gives manufacturer = `AdapterCompatibility` and device id = `PNPDeviceID` exactly when both are present; otherwise fails at the first one missing |
| `Inventory.VideoControllersOf` | LenovoLegionToolkit.Lib/Utils/OS.cs:77-90 | succeeds exactly when every record can be read; then one card per record, in record order; otherwise the failure of the first unreadable record |
| `Inventory.GetVideoControllersInformation` | LenovoLegionToolkit.Lib/Utils/OS.cs:77-90 | the foreach/yield loop computes VideoControllersOf |
| `Inventory.VideoControllersAppend` | LenovoLegionToolkit.Lib/Utils/OS.cs:77-90 | the cards of concatenated record lists are the concatenated cards |

## Left out

- Process launching (`ExecuteProcess`, `ExecuteProcessForOutput`, OS.cs:92-117) is OS process creation: hidden windows, waiting for exit, reading standard output to the end, and the exception when the executable cannot be started. Only the launch mode, executable and arguments are modelled (`Commands.Command`).
- The WMI query (`ManagementObjectSearcher`, OS.cs:64 and 79) is a platform call. Its result is an input sequence of records. A failing query or enumeration (`ManagementException`) is not modelled.
- A record's values are strings that have already been converted. `ToString()` of non-string WMI values is not modelled. A property that is absent or null is the same absent key in the model.
- `XDocument.Parse` (OS.cs:46) is a library parser. The model starts from the parsed tree, so malformed output (an `XmlException`) is not modelled.
- `SmiReport.Element.text` stands for the string `XElement.Value` returns. It is not computed from mixed content and descendants.
- Laziness is not modelled, because the model materialises every sequence. In the source, `ProcessNames` and `GetVideoControllersInformation` are evaluated only when enumerated, and again on each enumeration. So a missing `process_name` throws only when the names are enumerated, not inside `GetNVidiaInformation`. A missing WMI property throws only after the earlier cards were delivered. In the model the whole call fails.
- `HostInfo.IsNVidia`: folds ASCII letters only. `OrdinalIgnoreCase` folds all of Unicode; for the ASCII pattern "nvidia" the two differ only on non-ASCII characters that fold to ASCII letters.
- `HostInfo.IsNVidia`: a card whose `Manufacturer` is null (the struct's default, on which the source throws) cannot be represented; the card's fields are always strings.
- `FilePath.FileName`: treats only `\` and `/` as separators. The root and volume-separator handling of `Path.GetFileName` is not modelled (`C:foo` gives `foo`, the UNC root `\\server\share` gives the empty name on .NET Core, and any `:` is a separator on .NET Framework), nor is its rejection of invalid path characters on .NET Framework.
- `SmiReport.ExtractNVidiaInformation`: `ProcessCount` is a `nat`. The overflow of `Count()` past 2^31 - 1 entries is not modelled.
