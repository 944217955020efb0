/**
 * What the tabs share about the shell: the detected network interface and the substitution of the
 * `{iface}` placeholder in configured commands.
 */
module Shell {
  import opened Text

  const IfacePlaceholder := "{iface}"
  const UnknownIface := "unknown"

  /**
   * The interface name used in commands: the trimmed output of the detection pipeline, or
   * "unknown" when that output is blank. It is never empty.
   */
  function ResolveIface(detected: string): (iface: string)
    ensures iface != []
    ensures !IsBlank(detected) ==> iface == Trim(detected)
    ensures IsBlank(detected) ==> iface == UnknownIface
  {
    var t := Trim(detected);
    if t == [] then UnknownIface else t
  }

  /** A detected name without surrounding whitespace is used as it is. */
  lemma ResolveTrimmed(detected: string)
    requires detected != [] && !IsSpace(detected[0]) && !IsSpace(detected[|detected| - 1])
    ensures ResolveIface(detected) == detected
  {
  }

  /** `cmd.replace("{iface}", iface)`. */
  function Substitute(cmd: string, iface: string): string
  {
    ReplaceAll(cmd, IfacePlaceholder, iface)
  }

  /**
   * Substitution cuts the command at every placeholder, none of the pieces holding one, and
   * rejoins the pieces with the interface name; rejoining them with the placeholder gives the
   * command back, and a command without the placeholder is left unchanged.
   */
  lemma SubstituteSpec(cmd: string, iface: string)
    ensures Substitute(cmd, iface) == Join(Split(cmd, IfacePlaceholder), iface)
    ensures forall k :: 0 <= k < |Split(cmd, IfacePlaceholder)| ==> !Contains(Split(cmd, IfacePlaceholder)[k], IfacePlaceholder)
    ensures Join(Split(cmd, IfacePlaceholder), IfacePlaceholder) == cmd
    ensures !Contains(cmd, IfacePlaceholder) ==> Substitute(cmd, iface) == cmd
  {
    ReplaceIsSplitJoin(cmd, IfacePlaceholder, iface);
    SplitPiecesFree(cmd, IfacePlaceholder);
    SplitJoinRoundTrip(cmd, IfacePlaceholder);
    ReplaceAbsent(cmd, IfacePlaceholder, iface);
  }

  /** What running a command through the shell gave: its combined output, or a non-zero exit status. */
  datatype RunResult = Completed(output: string) | NonZeroExit

  const SensorsCommand := "sensors"
  const FailureReason := "Command failed or no output"
  const SensorsFallback := "No sensors data available (install lm-sensors or check host if VM)\n"
  const GenericFallback := "Command failed or no output\n"

  /**
   * The text written in place of a failed command's output: the lm-sensors hint when the command's
   * first word is `sensors`, the generic message otherwise.
   */
  function Fallback(cmd: string): (text: string)
    ensures text == SensorsFallback <==> FirstWord(cmd) == SensorsCommand
    ensures text == GenericFallback <==> FirstWord(cmd) != SensorsCommand
  {
    if FirstWord(cmd) == SensorsCommand then SensorsFallback else GenericFallback
  }

  /** `sensors` that completes with blank output counts as a failure. */
  predicate SilentSensors(cmd: string, r: RunResult)
  {
    cmd == SensorsCommand && r.Completed? && IsBlank(r.output)
  }
}
