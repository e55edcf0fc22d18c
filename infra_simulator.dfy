/** The provisioning session of `infra_simulator.py`: what `save_instances`
    would write, how `run_installer` forwards the installer's output and reads
    its exit code, and the branches of the main script. Files and the child
    process are not touched: the written data is returned as values, and the
    installer is given by whether its script exists, the lines it prints and
    its exit code. */
module InfraSimulator {
  import opened Wrappers
  import opened Text
  import opened Machines
  import opened Log
  import opened InputHelpers

  // ---------------------------------------------------------------------------
  // save_instances

  /** The JSON payload: one `to_dict` mapping per machine, in order. */
  function JsonPayload(vms: seq<Machine>): (data: seq<Dict>)
    ensures |data| == |vms|
    ensures forall i :: 0 <= i < |vms| ==> data[i] == ToDict(vms[i])
  {
    if vms == [] then [] else [ToDict(vms[0])] + JsonPayload(vms[1..])
  }

  /** The payload loses nothing: equal payloads come from equal machine lists. */
  lemma JsonPayloadInjective(a: seq<Machine>, b: seq<Machine>)
    requires JsonPayload(a) == JsonPayload(b)
    ensures a == b
  {
    forall i | 0 <= i < |a| ensures a[i] == b[i] {
      ToDictInjective(a[i], b[i]);
    }
  }

  /** One line of the text file: `"{name}: {os} | {cpu} vCPU | {ram_gb} GB RAM"`. */
  function TextLine(vm: Machine): string {
    vm.name + ": " + vm.os + " | " + IntToString(vm.cpu) + " vCPU | " + IntToString(vm.ramGb) + " GB RAM"
  }

  /** The line is the name, the OS and the two numbers in the fixed layout,
      each number spelled canonically (as `str` spells it) and reading back as
      the machine's cpu and ram_gb. */
  lemma TextLineFields(vm: Machine)
    ensures exists cpu: string, ram: string {:trigger ParseInt(cpu), ParseInt(ram)} ::
              TextLine(vm) == vm.name + ": " + vm.os + " | " + cpu + " vCPU | " + ram + " GB RAM"
              && IsCanonicalInt(cpu) && ParseInt(cpu) == Some(vm.cpu)
              && IsCanonicalInt(ram) && ParseInt(ram) == Some(vm.ramGb)
  {
    var cpu, ram := IntToString(vm.cpu), IntToString(vm.ramGb);
    assert ParseInt(cpu) == Some(vm.cpu) && ParseInt(ram) == Some(vm.ramGb);
  }

  /** The numbers in a line have exactly one spelling: whatever canonical
      strings read back as cpu and ram_gb, the line is the layout filled with
      those strings. */
  lemma TextLineSpellsNumbersCanonically(vm: Machine, cpu: string, ram: string)
    requires IsCanonicalInt(cpu) && ParseInt(cpu) == Some(vm.cpu)
    requires IsCanonicalInt(ram) && ParseInt(ram) == Some(vm.ramGb)
    ensures TextLine(vm) == vm.name + ": " + vm.os + " | " + cpu + " vCPU | " + ram + " GB RAM"
  {
    CanonicalIntIsIntToString(cpu, vm.cpu);
    CanonicalIntIsIntToString(ram, vm.ramGb);
  }

  /** A line never contains a line break of its own when the name has none,
      since canonical OS names and rendered numbers have none. */
  lemma TextLineHasNoNewline(vm: Machine)
    requires Valid(vm) && '\n' !in vm.name
    ensures '\n' !in TextLine(vm)
  {
    var cpu, ram := IntToString(vm.cpu), IntToString(vm.ramGb);
    assert '\n' !in cpu && '\n' !in ram;
    assert vm.os == "Ubuntu" || vm.os == "CentOS" by {
      var i :| 0 <= i < |AllowedOses| && AllowedOses[i].1 == vm.os;
    }
  }

  /** The text lines, one per machine, in order. */
  function TextLines(vms: seq<Machine>): (lines: seq<string>)
    ensures |lines| == |vms|
    ensures forall i :: 0 <= i < |vms| ==> lines[i] == TextLine(vms[i])
  {
    if vms == [] then [] else [TextLine(vms[0])] + TextLines(vms[1..])
  }

  /** The text file's contents: the lines joined by a line break. */
  function TextBody(vms: seq<Machine>): string {
    Join(TextLines(vms), '\n')
  }

  /** Reading the text file back line by line gives exactly one line per
      machine, in order, with no trailing empty line. */
  lemma TextBodyHasOneLinePerMachine(vms: seq<Machine>)
    requires |vms| >= 1
    requires forall i :: 0 <= i < |vms| ==> Valid(vms[i]) && '\n' !in vms[i].name
    ensures Split(TextBody(vms), '\n') == TextLines(vms)
    ensures |Split(TextBody(vms), '\n')| == |vms|
  {
    var lines := TextLines(vms);
    forall i | 0 <= i < |lines| ensures '\n' !in lines[i] {
      TextLineHasNoNewline(vms[i]);
    }
    SplitJoin(lines, '\n');
  }

  /** Both files of `save_instances`, as data. */
  datatype SavedFiles = SavedFiles(json: seq<Dict>, text: string)

  function Save(vms: seq<Machine>): SavedFiles {
    SavedFiles(JsonPayload(vms), TextBody(vms))
  }

  // ---------------------------------------------------------------------------
  // run_installer

  /** The installer as the simulation sees it: whether its script exists, the
      lines it prints, and the exit code it ends with. */
  datatype Installer = Installer(scriptExists: bool, output: seq<string>, exitCode: int)

  /** How `run_installer` ends: normally, with `CalledProcessError`, or with
      `FileNotFoundError`. */
  datatype InstallerOutcome = Succeeded | Failed(code: int) | ScriptMissing

  /** One installer line after `rstrip`: forwarded when something is left. */
  function Forward(line: string): seq<Event> {
    var text := RStrip(line);
    if text == "" then [] else [Event(Info, InstallerOutput(text))]
  }

  /** The forwarded output of the whole stream. */
  function ForwardedOutput(output: seq<string>): seq<Event> {
    if output == [] then []
    else ForwardedOutput(output[..|output| - 1]) + Forward(output[|output| - 1])
  }

  /** Forwarding is line by line: the output of two chunks is the output of
      the first followed by that of the second. */
  lemma {:induction false} ForwardedOutputAppend(a: seq<string>, b: seq<string>)
    ensures ForwardedOutput(a + b) == ForwardedOutput(a) + ForwardedOutput(b)
    decreases |b|
  {
    if b == [] {
      assert a + b == a;
    } else {
      var init := b[..|b| - 1];
      assert (a + b)[..|a + b| - 1] == a + init;
      assert (a + b)[|a + b| - 1] == b[|b| - 1];
      ForwardedOutputAppend(a, init);
    }
  }

  /** Every forwarded event is an info-level installer message that is not
      empty and has no trailing white space; blank lines add nothing. */
  lemma {:induction false} ForwardedOutputShape(output: seq<string>)
    ensures |ForwardedOutput(output)| <= |output|
    ensures forall e :: e in ForwardedOutput(output) ==>
              e.level == Info && e.tag.InstallerOutput? && e.tag.message != ""
              && !IsSpace(e.tag.message[|e.tag.message| - 1])
  {
    if output != [] {
      var last := output[|output| - 1];
      ForwardedOutputShape(output[..|output| - 1]);
      RStripRemovesTrailingSpace(last);
    }
  }

  /** A line is forwarded exactly when it is not blank, as its right-stripped text. */
  lemma ForwardSingleLine(line: string)
    ensures ForwardedOutput([line]) == Forward(line)
    ensures ForwardedOutput([line]) == [] <==> RStrip(line) == ""
  {
    assert [line][..0] == [];
  }

  /** What `run_installer` logs. */
  function InstallerLog(inst: Installer): seq<Event> {
    if !inst.scriptExists then [Event(Error, InstallerMissing)]
    else
      [Event(Info, InstallerRunning)] + ForwardedOutput(inst.output)
      + (if inst.exitCode == 0 then [Event(Info, InstallerSucceeded)]
         else [Event(Error, InstallerFailed(inst.exitCode))])
  }

  /** How `run_installer` ends: success exactly on exit code 0, a failure that
      carries any other code, and a missing script before anything runs. */
  function InstallerResult(inst: Installer): (r: InstallerOutcome)
    ensures r == Succeeded <==> inst.scriptExists && inst.exitCode == 0
    ensures r.Failed? <==> inst.scriptExists && inst.exitCode != 0
    ensures r.Failed? ==> r.code == inst.exitCode
    ensures r == ScriptMissing <==> !inst.scriptExists
  {
    if !inst.scriptExists then ScriptMissing
    else if inst.exitCode == 0 then Succeeded
    else Failed(inst.exitCode)
  }

  /** A missing script is reported and nothing is started or forwarded; a
      present one is announced first and its last event gives the verdict. */
  lemma InstallerLogShape(inst: Installer)
    ensures !inst.scriptExists ==>
              forall e :: e in InstallerLog(inst) ==> e.tag != InstallerRunning && !e.tag.InstallerOutput?
    ensures inst.scriptExists ==> |InstallerLog(inst)| >= 2 && InstallerLog(inst)[0] == Event(Info, InstallerRunning)
    ensures inst.scriptExists ==>
              (InstallerLog(inst)[|InstallerLog(inst)| - 1] == Event(Info, InstallerSucceeded) <==> inst.exitCode == 0)
    ensures inst.scriptExists && inst.exitCode != 0 ==>
              InstallerLog(inst)[|InstallerLog(inst)| - 1] == Event(Error, InstallerFailed(inst.exitCode))
  {
  }

  /** `run_installer`: streams the installer's lines into the log, then reads
      the exit code. */
  method RunInstaller(inst: Installer) returns (log: seq<Event>, outcome: InstallerOutcome)
    ensures log == InstallerLog(inst)
    ensures outcome == InstallerResult(inst)
  {
    if !inst.scriptExists {
      return [Event(Error, InstallerMissing)], ScriptMissing;
    }
    log := [Event(Info, InstallerRunning)];
    var i := 0;
    while i < |inst.output|
      invariant 0 <= i <= |inst.output|
      invariant log == [Event(Info, InstallerRunning)] + ForwardedOutput(inst.output[..i])
    {
      var line := RStrip(inst.output[i]);
      assert inst.output[..i + 1][..i] == inst.output[..i];
      if line != "" {
        log := log + [Event(Info, InstallerOutput(line))];
      }
      i := i + 1;
    }
    assert inst.output[..i] == inst.output;
    if inst.exitCode == 0 {
      log := log + [Event(Info, InstallerSucceeded)];
      outcome := Succeeded;
    } else {
      log := log + [Event(Error, InstallerFailed(inst.exitCode))];
      outcome := Failed(inst.exitCode);
    }
  }

  // ---------------------------------------------------------------------------
  // The main script

  /** What one run of the script leaves behind: its log, the files it saved
      (if any) and how the installer ended (if it was run). */
  datatype Session = Session(log: seq<Event>, saved: Option<SavedFiles>, installer: Option<InstallerOutcome>)

  /** One "Provisioned VM" event per machine, in order. */
  function ProvisionedEvents(vms: seq<Machine>): (events: seq<Event>)
    ensures |events| == |vms|
    ensures forall i :: 0 <= i < |vms| ==> events[i] == Event(Info, Provisioned(ToDict(vms[i])))
  {
    if vms == [] then []
    else ProvisionedEvents(vms[..|vms| - 1]) + [Event(Info, Provisioned(ToDict(vms[|vms| - 1])))]
  }

  /** The loop of the main script that logs each machine as provisioned. */
  method LogProvisioned(log: seq<Event>, vms: seq<Machine>) returns (out: seq<Event>)
    ensures out == log + ProvisionedEvents(vms)
  {
    out := log;
    for k := 0 to |vms|
      invariant out == log + ProvisionedEvents(vms[..k])
    {
      assert vms[..k + 1][..k] == vms[..k];
      out := out + [Event(Info, Provisioned(ToDict(vms[k])))];
    }
    assert vms[..|vms|] == vms;
  }

  /** What the main script logs after `run_installer` returns or raises:
      `CalledProcessError` is caught and logged again; `FileNotFoundError`
      reaches the outer `except Exception`. */
  function AfterInstaller(outcome: InstallerOutcome): seq<Event> {
    match outcome
    case Succeeded => []
    case Failed(code) => [Event(Error, InstallerFailed(code))]
    case ScriptMissing => [Event(Exception, UnexpectedError(InstallerNotFound))]
  }

  const Opening: seq<Event> := [Event(Info, LoggerReady), Event(Info, SessionStart)]
  const Closing: Event := Event(Info, SessionEnd)

  /** The main script once `get_vm_details` has ended with `c`. */
  function SessionFrom(c: Collection, inst: Installer): Session {
    match c
    case EndOfInput(w) =>
      Session(Opening + w + [Event(Exception, UnexpectedError(InputEnded)), Closing], None, None)
    case Collected(vms, w, _) =>
      if |vms| == 0 then
        Session(Opening + w + [Event(Info, NothingToSave), Closing], None, None)
      else
        var outcome := InstallerResult(inst);
        Session(Opening + w + [Event(Info, Saved(|vms|))] + ProvisionedEvents(vms)
                + InstallerLog(inst) + AfterInstaller(outcome) + [Closing],
                Some(Save(vms)), Some(outcome))
  }

  /** Every session opens with the logger and start events and, whatever
      happened in between, ends with the end-of-session event. */
  lemma SessionIsBracketed(c: Collection, inst: Installer)
    ensures |SessionFrom(c, inst).log| >= 3
    ensures Opening <= SessionFrom(c, inst).log
    ensures SessionFrom(c, inst).log[|SessionFrom(c, inst).log| - 1] == Closing
  {
  }

  /** Files are saved and the installer is run exactly when at least one
      machine was collected; the saved files hold those machines. */
  lemma SavedExactlyWhenMachinesEntered(c: Collection, inst: Installer, s: Session)
    requires s == SessionFrom(c, inst)
    ensures s.saved.Some? <==> c.Collected? && |c.machines| > 0
    ensures s.installer.Some? <==> s.saved.Some?
    ensures s.saved.Some? ==> s.saved.value.json == JsonPayload(c.machines) && s.saved.value.text == TextBody(c.machines)
  {
  }

  /** With nothing entered, the session says so, saves nothing, and never
      starts or looks for the installer. */
  lemma NothingEnteredRunsNothing(lines: seq<string>, inst: Installer, s: Session)
    requires Collect(lines).Collected? && Collect(lines).machines == []
    requires s == SessionFrom(Collect(lines), inst)
    ensures s.saved.None? && s.installer.None? && Event(Info, NothingToSave) in s.log
    ensures forall e :: e in s.log ==> !e.tag.InstallerRunning? && !e.tag.InstallerMissing?
  {
    CollectLogsOnlyEntryEvents(lines);
  }

  /** A failing installer is caught: the failure is logged by `run_installer`
      and again by the main script, and the session still ends normally. */
  lemma InstallerFailureIsCaught(vms: seq<Machine>, w: seq<Event>, next: nat, inst: Installer, s: Session)
    requires |vms| > 0 && inst.scriptExists && inst.exitCode != 0
    requires s == SessionFrom(Collected(vms, w, next), inst)
    ensures s.installer == Some(Failed(inst.exitCode))
    ensures |s.log| >= 3
    ensures s.log[|s.log| - 3] == Event(Error, InstallerFailed(inst.exitCode))
    ensures s.log[|s.log| - 2] == Event(Error, InstallerFailed(inst.exitCode))
    ensures s.log[|s.log| - 1] == Closing
  {
    var failed := Event(Error, InstallerFailed(inst.exitCode));
    var installerLog := InstallerLog(inst);
    assert installerLog == [Event(Info, InstallerRunning)] + ForwardedOutput(inst.output) + [failed];
    assert installerLog[|installerLog| - 1] == failed;
    var upToInstaller := Opening + w + [Event(Info, Saved(|vms|))] + ProvisionedEvents(vms) + installerLog;
    assert upToInstaller[|upToInstaller| - 1] == failed;
    var beforeEnd := upToInstaller + AfterInstaller(Failed(inst.exitCode));
    assert s.log == beforeEnd + [Closing];
    assert beforeEnd[|beforeEnd| - 2] == failed && beforeEnd[|beforeEnd| - 1] == failed;
  }

  /** Running out of input inside `get_vm_details` saves nothing, reaches the
      outer `except Exception`, and still ends the session. */
  lemma InputEndSavesNothing(w: seq<Event>, inst: Installer, s: Session)
    requires s == SessionFrom(EndOfInput(w), inst)
    ensures s.saved.None? && s.installer.None?
    ensures |s.log| >= 2 && s.log[|s.log| - 2] == Event(Exception, UnexpectedError(InputEnded))
  {
  }

  /** The main script: collect, then save, provision and install when there
      is something to work on. */
  method RunSession(lines: seq<string>, inst: Installer) returns (s: Session)
    ensures s == SessionFrom(Collect(lines), inst)
  {
    var c := GetVmDetails(lines);
    s := FinishSession(c, inst);
  }

  /** The main script from the return of `get_vm_details` on, including the
      handlers that turn a raised exception into a log event. */
  method FinishSession(c: Collection, inst: Installer) returns (s: Session)
    ensures s == SessionFrom(c, inst)
  {
    var log := Opening;
    match c {
      case EndOfInput(w) =>
        s := Session(log + w + [Event(Exception, UnexpectedError(InputEnded)), Closing], None, None);
      case Collected(vms, w, _) =>
        log := log + w;
        if |vms| == 0 {
          s := Session(log + [Event(Info, NothingToSave), Closing], None, None);
        } else {
          var saved := Save(vms);
          log := log + [Event(Info, Saved(|vms|))];
          log := LogProvisioned(log, vms);
          var installerLog, outcome := RunInstaller(inst);
          log := log + installerLog;
          match outcome {
            case Succeeded =>
            case Failed(code) =>
              log := log + [Event(Error, InstallerFailed(code))];
            case ScriptMissing =>
              log := log + [Event(Exception, UnexpectedError(InstallerNotFound))];
          }
          s := Session(log + [Closing], Some(saved), Some(outcome));
        }
    }
  }
}
