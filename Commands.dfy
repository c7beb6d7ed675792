/** The external commands the OS utilities launch, as (launch mode, executable, arguments). */
module Commands {

  /** The two ways a process is started: through the shell, waiting for the
      child to exit without reading its output (ExecuteProcess), or directly
      with standard output redirected and read to the end (ExecuteProcessForOutput). */
  datatype Launch = ShellExecute | CaptureOutput

  datatype Command = Command(launch: Launch, executable: string, arguments: string)

  const RestartDevicePrefix := "-restart-device \""
  const SetPowerPlanPrefix := "-setactive "

  /** Restarts the machine at once: `shutdown -r -t 0`. */
  function Restart(): (c: Command)
    ensures c.launch == ShellExecute && c.executable == "shutdown"
    ensures c.arguments == "-r -t 0"
  {
    Command(ShellExecute, "shutdown", "-r -t 0")
  }

  /** Restarts one device: `pnputil -restart-device "<id>"`, the id embedded verbatim. */
  function RestartDevice(pnpDeviceId: string): (c: Command)
    ensures c.launch == ShellExecute && c.executable == "pnputil"
    ensures |c.arguments| == |RestartDevicePrefix| + |pnpDeviceId| + 1
    ensures c.arguments[..|RestartDevicePrefix|] == RestartDevicePrefix
    ensures c.arguments[|RestartDevicePrefix|..|c.arguments| - 1] == pnpDeviceId
    ensures c.arguments[|c.arguments| - 1] == '"'
  {
    Command(ShellExecute, "pnputil", RestartDevicePrefix + pnpDeviceId + "\"")
  }

  /** Activates a power plan: `powercfg -setactive <guid>`, the guid embedded verbatim. */
  function SetPowerPlan(guid: string): (c: Command)
    ensures c.launch == ShellExecute && c.executable == "powercfg"
    ensures |c.arguments| == |SetPowerPlanPrefix| + |guid|
    ensures c.arguments[..|SetPowerPlanPrefix|] == SetPowerPlanPrefix
    ensures c.arguments[|SetPowerPlanPrefix|..] == guid
  {
    Command(ShellExecute, "powercfg", SetPowerPlanPrefix + guid)
  }

  /** Asks the GPU diagnostics tool for its XML report: `nvidia-smi -q -x`, output captured. */
  function NVidiaQuery(): (c: Command)
    ensures c.launch == CaptureOutput && c.executable == "nvidia-smi"
    ensures c.arguments == "-q -x"
  {
    Command(CaptureOutput, "nvidia-smi", "-q -x")
  }

  /** The slice of the arguments between the prefix and the closing quote:
      the reading-back partner of RestartDevice's template, used to state its
      round trip and injectivity as lemmas. */
  function DeviceIdOf(arguments: string): (id: string)
    requires |RestartDevicePrefix| + 1 <= |arguments|
    ensures |id| == |arguments| - |RestartDevicePrefix| - 1
  {
    arguments[|RestartDevicePrefix|..|arguments| - 1]
  }

  /** The device id is read back unchanged, so distinct ids give distinct commands. */
  lemma RestartDeviceRoundTrip(pnpDeviceId: string)
    ensures DeviceIdOf(RestartDevice(pnpDeviceId).arguments) == pnpDeviceId
  {
  }

  lemma RestartDeviceInjective(a: string, b: string)
    requires RestartDevice(a) == RestartDevice(b)
    ensures a == b
  {
    RestartDeviceRoundTrip(a);
    RestartDeviceRoundTrip(b);
  }

  lemma SetPowerPlanInjective(a: string, b: string)
    requires SetPowerPlan(a) == SetPowerPlan(b)
    ensures a == b
  {
    assert SetPowerPlan(a).arguments[|SetPowerPlanPrefix|..] == a;
  }

  /** The id ACPI\VEN_123: its backslash reaches pnputil unchanged. */
  lemma RestartDeviceExample()
    ensures RestartDevice("ACPI\\VEN_123").arguments == "-restart-device \"ACPI\\VEN_123\""
  {
  }

  /** Nothing is escaped: a quote inside the id ends the quoted argument early. */
  lemma RestartDeviceQuoteNotEscaped(pnpDeviceId: string, k: nat)
    requires k < |pnpDeviceId| && pnpDeviceId[k] == '"'
    ensures RestartDevice(pnpDeviceId).arguments[|RestartDevicePrefix| + k] == '"'
    ensures |RestartDevicePrefix| + k < |RestartDevice(pnpDeviceId).arguments| - 1
  {
    var args := RestartDevice(pnpDeviceId).arguments;
    assert args[|RestartDevicePrefix|..|args| - 1][k] == pnpDeviceId[k];
  }
}
