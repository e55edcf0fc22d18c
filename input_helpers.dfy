/** The interactive collector of src/input_helpers.py. The console is a finite
    sequence of input lines read through a cursor; running out of lines is the
    end of input (Python's `input()` would raise EOFError there). Each helper is
    a method with a loop, proved equal to a specification function over the
    same lines. */
module InputHelpers {
  import opened Wrappers
  import opened Text
  import opened Machines
  import opened Log

  // ---------------------------------------------------------------------------
  // Resolving an OS answer against the table

  /** `s.startswith(p)`. */
  predicate IsPrefix(p: string, s: string) {
    |p| <= |s| && s[..|p|] == p
  }

  /** `raw in table`: the position of the entry whose key is `raw`, if any. */
  function KeyIndex(raw: string, table: seq<(string, string)>): (r: Option<nat>)
    ensures r.Some? ==> r.value < |table| && table[r.value].0 == raw
    ensures r.None? ==> forall i :: 0 <= i < |table| ==> table[i].0 != raw
  {
    if table == [] then None
    else if table[0].0 == raw then Some(0)
    else match KeyIndex(raw, table[1..])
      case Some(i) => Some(i + 1)
      case None => None
  }

  /** The generator `next(canon for k, canon in table if k.startswith(raw))`:
      the position of the first key that starts with `raw`. */
  function FirstPrefixIndex(raw: string, table: seq<(string, string)>): (r: Option<nat>)
    ensures r.Some? ==> r.value < |table| && IsPrefix(raw, table[r.value].0)
    ensures r.Some? ==> forall j :: 0 <= j < r.value ==> !IsPrefix(raw, table[j].0)
    ensures r.None? ==> forall i :: 0 <= i < |table| ==> !IsPrefix(raw, table[i].0)
  {
    if table == [] then None
    else if IsPrefix(raw, table[0].0) then Some(0)
    else match FirstPrefixIndex(raw, table[1..])
      case Some(i) => Some(i + 1)
      case None => None
  }

  /** No two keys share their first character (and no key is empty). */
  predicate DistinctInitials(table: seq<(string, string)>) {
    (forall i :: 0 <= i < |table| ==> table[i].0 != "")
    && forall i, j :: 0 <= i < j < |table| ==> table[i].0[0] != table[j].0[0]
  }

  /** With distinct initials, a non-empty string is a prefix of at most one key,
      so the first match is the only match. */
  lemma PrefixMatchIsUnique(raw: string, table: seq<(string, string)>, i: nat, j: nat)
    requires DistinctInitials(table)
    requires raw != "" && i < |table| && j < |table|
    requires IsPrefix(raw, table[i].0) && IsPrefix(raw, table[j].0)
    ensures i == j
  {
    assert table[i].0[0] == raw[0] == table[j].0[0];
  }

  lemma AllowedOsesHaveDistinctInitials()
    ensures DistinctInitials(AllowedOses)
  {
    assert AllowedOses[0].0[0] == 'u' && AllowedOses[1].0[0] == 'c';
  }

  /** `_ask_choice_os` on one already stripped and lower-cased answer: an exact
      key wins, otherwise the first key that the non-empty answer starts.
      The answer is accepted exactly when it is a non-empty prefix of some key,
      and it then resolves to that key's canonical value. */
  function ResolveOs(raw: string): (r: Option<string>)
    ensures r.Some? ==> IsCanonicalOs(r.value)
  {
    match KeyIndex(raw, AllowedOses)
    case Some(i) => Some(AllowedOses[i].1)
    case None =>
      if raw == "" then None
      else match FirstPrefixIndex(raw, AllowedOses)
        case Some(i) => Some(AllowedOses[i].1)
        case None => None
  }

  /** An answer is accepted exactly when it is a non-empty prefix of some key,
      and then it resolves to that key's canonical value: an exact key and a
      prefix can never pick different entries. */
  lemma ResolveOsAcceptsExactlyPrefixes(raw: string)
    ensures ResolveOs(raw).Some?
            <==> raw != "" && exists i :: 0 <= i < |AllowedOses| && IsPrefix(raw, AllowedOses[i].0)
    ensures forall i :: 0 <= i < |AllowedOses| && raw != "" && IsPrefix(raw, AllowedOses[i].0)
              ==> ResolveOs(raw) == Some(AllowedOses[i].1)
  {
    AllowedOsesHaveDistinctInitials();
    match KeyIndex(raw, AllowedOses)
    case Some(i) =>
      assert IsPrefix(raw, AllowedOses[i].0);
      forall j | 0 <= j < |AllowedOses| && raw != "" && IsPrefix(raw, AllowedOses[j].0)
        ensures j == i
      {
        PrefixMatchIsUnique(raw, AllowedOses, i, j);
      }
    case None =>
      if raw != "" {
        match FirstPrefixIndex(raw, AllowedOses)
        case Some(i) =>
          forall j | 0 <= j < |AllowedOses| && IsPrefix(raw, AllowedOses[j].0)
            ensures j == i
          {
            PrefixMatchIsUnique(raw, AllowedOses, i, j);
          }
        case None =>
      }
  }

  /** Examples of resolution: an exact key, a longer prefix and a one-letter
      answer. */
  lemma ResolveOsExamples()
    ensures ResolveOs("ubuntu") == Some("Ubuntu")
    ensures ResolveOs("cent") == Some("CentOS")
    ensures ResolveOs("u") == Some("Ubuntu")
  {
    ResolveOsAcceptsExactlyPrefixes("cent");
    ResolveOsAcceptsExactlyPrefixes("u");
    assert IsPrefix("cent", AllowedOses[1].0);
    assert IsPrefix("u", AllowedOses[0].0);
  }

  /** Examples of answers that resolve to nothing: empty, unknown, or longer
      than every key. */
  lemma ResolveOsRejectionExamples()
    ensures ResolveOs("") == None && ResolveOs("debian") == None && ResolveOs("ubuntu22") == None
  {
    ResolveOsAcceptsExactlyPrefixes("debian");
    ResolveOsAcceptsExactlyPrefixes("ubuntu22");
    assert !IsPrefix("debian", AllowedOses[0].0) && !IsPrefix("debian", AllowedOses[1].0);
    assert !IsPrefix("ubuntu22", AllowedOses[0].0) && !IsPrefix("ubuntu22", AllowedOses[1].0);
  }

  // ---------------------------------------------------------------------------
  // One answer line, judged by the prompt that read it

  /** The three kinds of prompt: `_ask_nonempty`, `_ask_choice_os` and
      `_ask_int_range(lo, hi)`. */
  datatype Prompt = NonEmptyPrompt | OsPrompt | RangePrompt(lo: int, hi: int)

  /** An accepted answer: text, or an integer. */
  datatype Reply = Text(text: string) | Number(number: int)

  /** The verdict on one input line: accepted, or rejected with a warning. */
  datatype Step = Accept(reply: Reply) | Reject(warning: Event)

  /** `_ask_nonempty`: the stripped line, if it is not empty. */
  function NonEmptyStep(line: string): (s: Step)
    ensures s.Accept? ==> s.reply.Text? && s.reply.text != ""
  {
    var val := Strip(line);
    if val != "" then Accept(Text(val)) else Reject(Event(Warning, EmptyValue))
  }

  /** `_ask_choice_os`: the line stripped, lower-cased and resolved. */
  function OsStep(line: string): (s: Step)
    ensures s.Accept? ==> s.reply.Text? && IsCanonicalOs(s.reply.text)
  {
    var raw := Lower(Strip(line));
    match ResolveOs(raw)
    case Some(os) => Accept(Text(os))
    case None => Reject(Event(Warning, InvalidOs(raw)))
  }

  /** `_ask_int_range`: an integer in `lo..hi`. A line that is not an integer
      and an integer out of range are rejected with different warnings. */
  function IntStep(line: string, lo: int, hi: int): (s: Step)
    ensures s.Accept? ==> s.reply.Number? && lo <= s.reply.number <= hi
  {
    var raw := Strip(line);
    match ParseInt(raw)
    case None => Reject(Event(Warning, NotAnInteger(raw)))
    case Some(val) =>
      if lo <= val <= hi then Accept(Number(val)) else Reject(Event(Warning, OutOfRange(val, lo, hi)))
  }

  function Judge(prompt: Prompt, line: string): Step {
    match prompt
    case NonEmptyPrompt => NonEmptyStep(line)
    case OsPrompt => OsStep(line)
    case RangePrompt(lo, hi) => IntStep(line, lo, hi)
  }

  /** `_ask_nonempty` accepts exactly the lines that are not blank, as their
      stripped text, and warns about the others. */
  lemma NonEmptyStepAcceptsNonBlank(line: string)
    ensures NonEmptyStep(line).Accept? <==> Strip(line) != ""
    ensures NonEmptyStep(line).Accept? ==> NonEmptyStep(line).reply == Text(Strip(line))
    ensures NonEmptyStep(line).Reject? ==> NonEmptyStep(line).warning == Event(Warning, EmptyValue)
  {
  }

  /** `_ask_choice_os` compares after stripping and lower-casing: a line is
      accepted exactly when what remains is a non-empty prefix of a key, and
      then it gives that key's canonical value. */
  lemma OsStepAcceptsPrefixesOfKeys(line: string)
    ensures OsStep(line).Accept? <==>
              Lower(Strip(line)) != ""
              && exists i :: 0 <= i < |AllowedOses| && IsPrefix(Lower(Strip(line)), AllowedOses[i].0)
    ensures forall i :: 0 <= i < |AllowedOses| && Lower(Strip(line)) != "" && IsPrefix(Lower(Strip(line)), AllowedOses[i].0)
              ==> OsStep(line) == Accept(Text(AllowedOses[i].1))
    ensures OsStep(line).Reject? ==> OsStep(line).warning == Event(Warning, InvalidOs(Lower(Strip(line))))
  {
    ResolveOsAcceptsExactlyPrefixes(Lower(Strip(line)));
  }

  /** `_ask_int_range` accepts exactly the integers in range; a line that is
      not an integer and an integer out of range get different warnings. */
  lemma IntStepRejections(line: string, lo: int, hi: int)
    ensures IntStep(line, lo, hi).Accept? <==> ParseInt(Strip(line)).Some? && lo <= ParseInt(Strip(line)).value <= hi
    ensures IntStep(line, lo, hi).Accept? ==> IntStep(line, lo, hi).reply == Number(ParseInt(Strip(line)).value)
    ensures ParseInt(Strip(line)).None? ==> IntStep(line, lo, hi) == Reject(Event(Warning, NotAnInteger(Strip(line))))
    ensures ParseInt(Strip(line)).Some? && !(lo <= ParseInt(Strip(line)).value <= hi) ==>
              IntStep(line, lo, hi) == Reject(Event(Warning, OutOfRange(ParseInt(Strip(line)).value, lo, hi)))
  {
  }

  /** A value with units is not an integer, which is reported differently from
      an integer outside the range. */
  lemma UnitSuffixIsNotAnInteger()
    ensures IntStep("4GB", RamMin, RamMax) == Reject(Event(Warning, NotAnInteger("4GB")))
    ensures IntStep("513", RamMin, RamMax) == Reject(Event(Warning, OutOfRange(513, RamMin, RamMax)))
  {
    assert !IsDecimal("4GB") by { assert !IsDigit("4GB"[1]); }
    assert Strip("4GB") == "4GB";
    assert Strip("513") == "513";
    assert "513"[..2] == "51" && "51"[..1] == "5" && "5"[..0] == "";
    assert DigitsValue("513") == 513;
    assert IsDecimal("513");
    assert ParseInt("513") == Some(513);
  }

  // ---------------------------------------------------------------------------
  // Asking until an answer is accepted

  /** The outcome of one prompt: the accepted reply and the cursor after its
      line, or the end of input; with the warnings logged on the way. */
  datatype Asked = Answered(reply: Reply, next: nat, warnings: seq<Event>) | Exhausted(warnings: seq<Event>)

  function WithWarnings(ws: seq<Event>, a: Asked): Asked {
    match a
    case Answered(v, next, w) => Answered(v, next, ws + w)
    case Exhausted(w) => Exhausted(ws + w)
  }

  lemma WithWarningsTwice(ws1: seq<Event>, ws2: seq<Event>, a: Asked)
    ensures WithWarnings(ws1, WithWarnings(ws2, a)) == WithWarnings(ws1 + ws2, a)
  {
    assert ws1 + (ws2 + a.warnings) == (ws1 + ws2) + a.warnings;
  }

  /** The verdict of `prompt` on every input line. */
  function Verdicts(lines: seq<string>, prompt: Prompt): seq<Step> {
    seq(|lines|, i requires 0 <= i < |lines| => Judge(prompt, lines[i]))
  }

  /** The retry loop `while True: ... input() ...` shared by the helpers, over
      the verdicts on the lines: from `pos` on until one is accepted. */
  function AskFrom(verdicts: seq<Step>, pos: nat): Asked
    requires pos <= |verdicts|
    decreases |verdicts| - pos
  {
    if pos == |verdicts| then Exhausted([])
    else match verdicts[pos]
      case Accept(v) => Answered(v, pos + 1, [])
      case Reject(w) => WithWarnings([w], AskFrom(verdicts, pos + 1))
  }

  /** One prompt asked from line `pos` on. */
  function AskSpec(lines: seq<string>, pos: nat, prompt: Prompt): Asked
    requires pos <= |lines|
  {
    AskFrom(Verdicts(lines, prompt), pos)
  }

  /** An answer comes from the verdict that accepted, at or after the cursor,
      and the cursor moves just past it. */
  lemma {:induction false} AskFromAnswer(verdicts: seq<Step>, pos: nat)
    requires pos <= |verdicts|
    ensures AskFrom(verdicts, pos).Answered? ==> pos < AskFrom(verdicts, pos).next <= |verdicts|
    ensures AskFrom(verdicts, pos).Answered? ==>
              verdicts[AskFrom(verdicts, pos).next - 1] == Accept(AskFrom(verdicts, pos).reply)
    decreases |verdicts| - pos
  {
    if pos < |verdicts| && verdicts[pos].Reject? {
      var rest := AskFrom(verdicts, pos + 1);
      var r := AskFrom(verdicts, pos);
      assert r == WithWarnings([verdicts[pos].warning], rest);
      AskFromAnswer(verdicts, pos + 1);
      if r.Answered? {
        assert rest.Answered? && r.next == rest.next && r.reply == rest.reply;
      }
    }
  }

  /** An answer comes from the line the prompt accepted, at or after the
      cursor, and the cursor moves just past it. */
  lemma AskSpecAnswer(lines: seq<string>, pos: nat, prompt: Prompt)
    requires pos <= |lines|
    ensures AskSpec(lines, pos, prompt).Answered? ==> pos < AskSpec(lines, pos, prompt).next <= |lines|
    ensures AskSpec(lines, pos, prompt).Answered? ==>
              Judge(prompt, lines[AskSpec(lines, pos, prompt).next - 1]) == Accept(AskSpec(lines, pos, prompt).reply)
  {
    var verdicts := Verdicts(lines, prompt);
    AskFromAnswer(verdicts, pos);
    var r := AskSpec(lines, pos, prompt);
    if r.Answered? {
      assert verdicts[r.next - 1] == Judge(prompt, lines[r.next - 1]);
    }
  }

  /** What an accepted reply to each prompt is known to be. */
  predicate Fits(prompt: Prompt, reply: Reply) {
    match prompt
    case NonEmptyPrompt => reply.Text? && reply.text != ""
    case OsPrompt => reply.Text? && IsCanonicalOs(reply.text)
    case RangePrompt(lo, hi) => reply.Number? && lo <= reply.number <= hi
  }

  /** Every answer fits its prompt, and the cursor moves forward. */
  lemma AskSpecAnswerFits(lines: seq<string>, pos: nat, prompt: Prompt)
    requires pos <= |lines|
    ensures AskSpec(lines, pos, prompt).Answered? ==> pos < AskSpec(lines, pos, prompt).next <= |lines|
    ensures AskSpec(lines, pos, prompt).Answered? ==> Fits(prompt, AskSpec(lines, pos, prompt).reply)
  {
    AskSpecAnswer(lines, pos, prompt);
  }

  /** A line accepted at the first attempt answers the prompt at once and
      logs no warning. */
  lemma FirstLineAccepted(lines: seq<string>, pos: nat, prompt: Prompt, v: Reply)
    requires pos < |lines| && Judge(prompt, lines[pos]) == Accept(v)
    ensures AskSpec(lines, pos, prompt) == Answered(v, pos + 1, [])
  {
    assert Verdicts(lines, prompt)[pos] == Judge(prompt, lines[pos]);
  }

  /** A rejected line adds its warning, and the prompt is asked again from the
      next line. */
  lemma AskSpecRejects(lines: seq<string>, pos: nat, prompt: Prompt, w: Event)
    requires pos < |lines| && Judge(prompt, lines[pos]) == Reject(w)
    ensures AskSpec(lines, pos, prompt) == WithWarnings([w], AskSpec(lines, pos + 1, prompt))
  {
    assert Verdicts(lines, prompt)[pos] == Judge(prompt, lines[pos]);
  }

  /** The line a prompt stopped at: the accepted one, or the end of input. */
  function Stop(a: Asked, end: nat): int {
    if a.Answered? then a.next - 1 else end
  }

  /** Every verdict before the accepting one (or before the end of input) is
      a rejection, and each rejection gives exactly one warning, in order. */
  lemma {:induction false} AskFromLogsEachRejection(verdicts: seq<Step>, pos: nat)
    requires pos <= |verdicts|
    ensures pos <= Stop(AskFrom(verdicts, pos), |verdicts|) <= |verdicts|
    ensures |AskFrom(verdicts, pos).warnings| == Stop(AskFrom(verdicts, pos), |verdicts|) - pos
    ensures forall k :: pos <= k < Stop(AskFrom(verdicts, pos), |verdicts|)
              ==> verdicts[k] == Reject(AskFrom(verdicts, pos).warnings[k - pos])
    decreases |verdicts| - pos
  {
    if pos < |verdicts| && verdicts[pos].Reject? {
      var w := verdicts[pos].warning;
      var rest := AskFrom(verdicts, pos + 1);
      var r := AskFrom(verdicts, pos);
      assert r == WithWarnings([w], rest);
      AskFromLogsEachRejection(verdicts, pos + 1);
      assert r.warnings == [w] + rest.warnings;
      var stop := Stop(r, |verdicts|);
      assert stop == Stop(rest, |verdicts|);
      forall k | pos <= k < stop
        ensures verdicts[k] == Reject(r.warnings[k - pos])
      {
        if k > pos {
          assert r.warnings[k - pos] == rest.warnings[k - (pos + 1)];
        }
      }
    }
  }

  /** Every line before the accepted one (or before the end of input) was
      rejected, and each rejection logged exactly one warning, in order. */
  lemma AskSpecLogsEachRejection(lines: seq<string>, pos: nat, prompt: Prompt)
    requires pos <= |lines|
    ensures pos <= Stop(AskSpec(lines, pos, prompt), |lines|) <= |lines|
    ensures |AskSpec(lines, pos, prompt).warnings| == Stop(AskSpec(lines, pos, prompt), |lines|) - pos
    ensures forall k :: pos <= k < Stop(AskSpec(lines, pos, prompt), |lines|)
              ==> Judge(prompt, lines[k]) == Reject(AskSpec(lines, pos, prompt).warnings[k - pos])
  {
    var verdicts := Verdicts(lines, prompt);
    AskFromLogsEachRejection(verdicts, pos);
    forall k | pos <= k < Stop(AskSpec(lines, pos, prompt), |lines|)
      ensures Judge(prompt, lines[k]) == Reject(AskSpec(lines, pos, prompt).warnings[k - pos])
    {
      assert verdicts[k] == Judge(prompt, lines[k]);
    }
  }

  /** `_ask_nonempty`: only ever a non-empty, stripped string. */
  method AskNonEmpty(lines: seq<string>, pos: nat) returns (r: Asked)
    requires pos <= |lines|
    ensures r == AskSpec(lines, pos, NonEmptyPrompt)
    ensures r.Answered? ==> pos < r.next <= |lines|
    ensures r.Answered? ==> r.reply.Text? && r.reply.text != "" && Strip(r.reply.text) == r.reply.text
  {
    var i := pos;
    var warnings: seq<Event> := [];
    while i < |lines|
      invariant pos <= i <= |lines|
      invariant AskSpec(lines, pos, NonEmptyPrompt) == WithWarnings(warnings, AskSpec(lines, i, NonEmptyPrompt))
    {
      var val := Strip(lines[i]);
      if val != "" {
        StripIdempotent(lines[i]);
        FirstLineAccepted(lines, i, NonEmptyPrompt, Text(val));
        assert warnings + [] == warnings;
        return Answered(Text(val), i + 1, warnings);
      }
      AskSpecRejects(lines, i, NonEmptyPrompt, Event(Warning, EmptyValue));
      WithWarningsTwice(warnings, [Event(Warning, EmptyValue)], AskSpec(lines, i + 1, NonEmptyPrompt));
      warnings := warnings + [Event(Warning, EmptyValue)];
      i := i + 1;
    }
    assert warnings + [] == warnings;
    return Exhausted(warnings);
  }

  /** `_ask_choice_os`: only ever a canonical OS value. */
  method AskChoiceOs(lines: seq<string>, pos: nat) returns (r: Asked)
    requires pos <= |lines|
    ensures r == AskSpec(lines, pos, OsPrompt)
    ensures r.Answered? ==> pos < r.next <= |lines|
    ensures r.Answered? ==> r.reply.Text? && IsCanonicalOs(r.reply.text)
  {
    var i := pos;
    var warnings: seq<Event> := [];
    while i < |lines|
      invariant pos <= i <= |lines|
      invariant AskSpec(lines, pos, OsPrompt) == WithWarnings(warnings, AskSpec(lines, i, OsPrompt))
    {
      var raw := Lower(Strip(lines[i]));
      var os := ResolveOs(raw);
      if os.Some? {
        FirstLineAccepted(lines, i, OsPrompt, Text(os.value));
        assert warnings + [] == warnings;
        return Answered(Text(os.value), i + 1, warnings);
      }
      AskSpecRejects(lines, i, OsPrompt, Event(Warning, InvalidOs(raw)));
      WithWarningsTwice(warnings, [Event(Warning, InvalidOs(raw))], AskSpec(lines, i + 1, OsPrompt));
      warnings := warnings + [Event(Warning, InvalidOs(raw))];
      i := i + 1;
    }
    assert warnings + [] == warnings;
    return Exhausted(warnings);
  }

  /** `_ask_int_range`: only ever an integer `v` with `lo <= v <= hi`. */
  method AskIntRange(lines: seq<string>, pos: nat, lo: int, hi: int) returns (r: Asked)
    requires pos <= |lines|
    ensures r == AskSpec(lines, pos, RangePrompt(lo, hi))
    ensures r.Answered? ==> pos < r.next <= |lines|
    ensures r.Answered? ==> r.reply.Number? && lo <= r.reply.number <= hi
  {
    var i := pos;
    var warnings: seq<Event> := [];
    while i < |lines|
      invariant pos <= i <= |lines|
      invariant AskSpec(lines, pos, RangePrompt(lo, hi)) == WithWarnings(warnings, AskSpec(lines, i, RangePrompt(lo, hi)))
    {
      var raw := Strip(lines[i]);
      var warning;
      match ParseInt(raw) {
        case Some(val) =>
          if lo <= val <= hi {
            FirstLineAccepted(lines, i, RangePrompt(lo, hi), Number(val));
            assert warnings + [] == warnings;
            return Answered(Number(val), i + 1, warnings);
          }
          warning := Event(Warning, OutOfRange(val, lo, hi));
        case None =>
          warning := Event(Warning, NotAnInteger(raw));
      }
      AskSpecRejects(lines, i, RangePrompt(lo, hi), warning);
      WithWarningsTwice(warnings, [warning], AskSpec(lines, i + 1, RangePrompt(lo, hi)));
      warnings := warnings + [warning];
      i := i + 1;
    }
    assert warnings + [] == warnings;
    return Exhausted(warnings);
  }

  // ---------------------------------------------------------------------------
  // Collecting machines until the sentinel

  /** What `get_vm_details` ends with: the machines, everything it logged and
      the cursor after the sentinel line; or the end of input, where Python's
      `input()` raises EOFError and the machines are lost. */
  datatype Collection =
    | Collected(machines: seq<Machine>, log: seq<Event>, next: nat)
    | EndOfInput(log: seq<Event>)

  function Logged(prefix: seq<Event>, c: Collection): Collection {
    match c
    case Collected(ms, log, next) => Collected(ms, prefix + log, next)
    case EndOfInput(log) => EndOfInput(prefix + log)
  }

  lemma LoggedTwice(a: seq<Event>, b: seq<Event>, c: Collection)
    ensures Logged(a, Logged(b, c)) == Logged(a + b, c)
  {
    assert a + (b + c.log) == (a + b) + c.log;
  }

  /** `name.lower() == "done"` on the stripped name line. */
  predicate IsSentinel(line: string) {
    Lower(Strip(line)) == "done"
  }

  /** The names already accepted: the contents of `seen_names`. */
  function Names(vms: seq<Machine>): set<string> {
    if vms == [] then {} else Names(vms[..|vms| - 1]) + {vms[|vms| - 1].name}
  }

  lemma NamesAppend(vms: seq<Machine>, vm: Machine)
    ensures Names(vms + [vm]) == Names(vms) + {vm.name}
  {
    assert (vms + [vm])[..|vms|] == vms;
  }

  /** The name of every collected machine is among the accepted names. */
  lemma {:induction false} NamesHoldsEveryName(vms: seq<Machine>, i: nat)
    requires i < |vms|
    ensures vms[i].name in Names(vms)
    decreases |vms|
  {
    if i < |vms| - 1 {
      NamesHoldsEveryName(vms[..|vms| - 1], i);
    }
  }

  /** Every accepted name is carried by some collected machine; with
      `NamesHoldsEveryName`, a name is accepted exactly when a machine has it. */
  lemma {:induction false} NamesHoldsOnlyMachineNames(vms: seq<Machine>, name: string)
    requires name in Names(vms)
    ensures exists i :: 0 <= i < |vms| && vms[i].name == name
    decreases |vms|
  {
    var init := vms[..|vms| - 1];
    if name == vms[|vms| - 1].name {
      assert vms[|vms| - 1].name == name;
    } else {
      NamesHoldsOnlyMachineNames(init, name);
      var i :| 0 <= i < |init| && init[i].name == name;
      assert vms[i] == init[i];
    }
  }

  predicate DistinctNames(vms: seq<Machine>) {
    forall i, j :: 0 <= i < j < |vms| ==> vms[i].name != vms[j].name
  }

  /** What the collected list promises: every machine valid, no name twice,
      and no name that is the sentinel. */
  predicate Sound(vms: seq<Machine>) {
    (forall i :: 0 <= i < |vms| ==> Valid(vms[i]) && Lower(vms[i].name) != "done")
    && DistinctNames(vms)
  }

  /** Appending a valid machine under a fresh name that is not the sentinel
      keeps the list sound. */
  lemma SoundAppend(vms: seq<Machine>, vm: Machine)
    requires Sound(vms) && Valid(vm) && Lower(vm.name) != "done" && vm.name !in Names(vms)
    ensures Sound(vms + [vm])
  {
    forall i | 0 <= i < |vms| ensures vms[i].name != vm.name {
      NamesHoldsEveryName(vms, i);
    }
  }

  /** The three field prompts of one record, in the order os, cpu, ram_gb, and
      the construction of the machine; or the end of input on the way. */
  datatype Record =
    | Read(built: Result<Machine, ValidationError>, log: seq<Event>, next: nat)
    | Cut(log: seq<Event>)

  function ReadRecord(lines: seq<string>, pos: nat, name: string): (r: Record)
    requires pos <= |lines|
    ensures r.Read? ==> pos + 3 <= r.next <= |lines|
  {
    AskSpecAnswerFits(lines, pos, OsPrompt);
    match AskSpec(lines, pos, OsPrompt)
    case Exhausted(w1) => Cut(w1)
    case Answered(os, p1, w1) =>
      AskSpecAnswerFits(lines, p1, RangePrompt(CpuMin, CpuMax));
      match AskSpec(lines, p1, RangePrompt(CpuMin, CpuMax))
      case Exhausted(w2) => Cut(w1 + w2)
      case Answered(cpu, p2, w2) =>
        AskSpecAnswerFits(lines, p2, RangePrompt(RamMin, RamMax));
        match AskSpec(lines, p2, RangePrompt(RamMin, RamMax))
        case Exhausted(w3) => Cut(w1 + w2 + w3)
        case Answered(ram, p3, w3) =>
          Read(NewMachine(name, os.text, cpu.number, ram.number), w1 + w2 + w3, p3)
  }

  /** The field prompts only accept values the constructor accepts, so the
      defensive construction in `get_vm_details` never fails. */
  lemma RecordAlwaysBuilds(lines: seq<string>, pos: nat, name: string)
    requires pos <= |lines| && name != ""
    ensures ReadRecord(lines, pos, name).Read? ==> ReadRecord(lines, pos, name).built.Success?
    ensures ReadRecord(lines, pos, name).Read? && ReadRecord(lines, pos, name).built.Success? ==>
              ReadRecord(lines, pos, name).built.value.name == name && Valid(ReadRecord(lines, pos, name).built.value)
  {
    AskSpecAnswerFits(lines, pos, OsPrompt);
    var os := AskSpec(lines, pos, OsPrompt);
    if os.Answered? {
      AskSpecAnswerFits(lines, os.next, RangePrompt(CpuMin, CpuMax));
      var cpu := AskSpec(lines, os.next, RangePrompt(CpuMin, CpuMax));
      if cpu.Answered? {
        AskSpecAnswerFits(lines, cpu.next, RangePrompt(RamMin, RamMax));
      }
    }
  }

  /** The loop of `get_vm_details` from cursor `pos`, with `vms` collected so far. */
  function CollectFrom(lines: seq<string>, pos: nat, vms: seq<Machine>): Collection
    requires pos <= |lines|
    decreases |lines| - pos
  {
    if pos == |lines| then EndOfInput([])
    else
      var name := Strip(lines[pos]);
      if IsSentinel(lines[pos]) then Collected(vms, [Event(Info, EntryFinished(|vms|))], pos + 1)
      else if name == "" then Logged([Event(Warning, EmptyMachineName)], CollectFrom(lines, pos + 1, vms))
      else if name in Names(vms) then
        Logged([Event(Warning, DuplicateName(name))], CollectFrom(lines, pos + 1, vms))
      else
        match ReadRecord(lines, pos + 1, name)
        case Cut(w) => EndOfInput(w)
        case Read(built, w, next) =>
          var kept := match built case Success(vm) => vms + [vm] case Failure(_) => vms;
          var note := match built
            case Success(vm) => Event(Info, AddedVm(vm))
            case Failure(e) => Event(Error, ConstructionFailed(e));
          Logged(w + [note], CollectFrom(lines, next, kept))
  }

  /** The field prompts of `get_vm_details` and the construction of the machine. */
  method ReadFields(lines: seq<string>, pos: nat, name: string) returns (r: Record)
    requires pos <= |lines|
    ensures r == ReadRecord(lines, pos, name)
    ensures r.Read? ==> pos + 3 <= r.next <= |lines|
    ensures r.Read? && r.built.Success? ==> r.built.value.name == name
  {
    var os := AskChoiceOs(lines, pos);
    if os.Exhausted? {
      return Cut(os.warnings);
    }
    var cpu := AskIntRange(lines, os.next, CpuMin, CpuMax);
    if cpu.Exhausted? {
      return Cut(os.warnings + cpu.warnings);
    }
    var ram := AskIntRange(lines, cpu.next, RamMin, RamMax);
    if ram.Exhausted? {
      return Cut(os.warnings + cpu.warnings + ram.warnings);
    }
    var built := NewMachine(name, os.reply.text, cpu.reply.number, ram.reply.number);
    return Read(built, os.warnings + cpu.warnings + ram.warnings, ram.next);
  }

  /** `get_vm_details` on the whole input. */
  function Collect(lines: seq<string>): Collection {
    Logged([Event(Info, EntryStarted)], CollectFrom(lines, 0, []))
  }

  /** `get_vm_details`: reads name lines until the sentinel, skipping empty and
      duplicate names, and appends each constructed machine while recording its
      name as seen. */
  method GetVmDetails(lines: seq<string>) returns (r: Collection)
    ensures r == Collect(lines)
    ensures r.Collected? ==> Sound(r.machines) && 0 < r.next <= |lines| && IsSentinel(lines[r.next - 1])
  {
    var vms: seq<Machine> := [];
    var seenNames: set<string> := {};
    var log := [Event(Info, EntryStarted)];
    var pos := 0;
    while pos < |lines|
      invariant pos <= |lines|
      invariant seenNames == Names(vms)
      invariant Collect(lines) == Logged(log, CollectFrom(lines, pos, vms))
      decreases |lines| - pos
    {
      var stop;
      stop, vms, seenNames, log, pos := VisitName(lines, pos, vms, seenNames, log);
      if stop.Some? {
        CollectSound(lines);
        return stop.value;
      }
    }
    assert CollectFrom(lines, pos, vms) == EndOfInput([]);
    assert log + [] == log;
    return EndOfInput(log);
  }

  /** One pass of the loop of `get_vm_details`, on the name line at `pos`: the
      sentinel ends the entry; an empty or repeated name is skipped with a
      warning; a fresh name is followed by its record. `stop` is the finished
      entry, or the end of input inside a record. */
  method VisitName(lines: seq<string>, pos: nat, vms: seq<Machine>, seenNames: set<string>, log: seq<Event>)
      returns (stop: Option<Collection>, vms2: seq<Machine>, seen2: set<string>, log2: seq<Event>, next: nat)
    requires pos < |lines| && seenNames == Names(vms)
    requires Collect(lines) == Logged(log, CollectFrom(lines, pos, vms))
    ensures stop.Some? ==> stop.value == Collect(lines)
    ensures stop.Some? && stop.value.Collected? ==> stop.value.next == pos + 1 && IsSentinel(lines[pos])
    ensures stop.None? ==> pos < next <= |lines| && seen2 == Names(vms2)
    ensures stop.None? ==> Collect(lines) == Logged(log2, CollectFrom(lines, next, vms2))
  {
    vms2, seen2, log2, next := vms, seenNames, log, pos + 1;
    var name := Strip(lines[pos]);
    if Lower(name) == "done" {
      SentinelStep(lines, pos, vms, log);
      return Some(Collected(vms, log + [Event(Info, EntryFinished(|vms|))], pos + 1)), vms2, seen2, log2, next;
    }
    if name == "" {
      SkipStep(lines, pos, vms, log);
      log2 := log + [Event(Warning, EmptyMachineName)];
      return None, vms2, seen2, log2, next;
    }
    if name in seenNames {
      SkipStep(lines, pos, vms, log);
      log2 := log + [Event(Warning, DuplicateName(name))];
      return None, vms2, seen2, log2, next;
    }
    var cut;
    cut, vms2, seen2, log2, next := AddRecord(lines, pos, vms, seenNames, log);
    stop := if cut then Some(EndOfInput(log2)) else None;
  }

  /** The rest of one pass of the loop of `get_vm_details` after a fresh name:
      the field prompts, the construction, and then either the append with the
      name recorded as seen, or the construction error. `cut` is the end of
      input on the way. */
  method AddRecord(lines: seq<string>, pos: nat, vms: seq<Machine>, seenNames: set<string>, log: seq<Event>)
      returns (cut: bool, vms2: seq<Machine>, seen2: set<string>, log2: seq<Event>, next: nat)
    requires pos < |lines| && !IsSentinel(lines[pos])
    requires Strip(lines[pos]) != "" && Strip(lines[pos]) !in Names(vms) && seenNames == Names(vms)
    requires Collect(lines) == Logged(log, CollectFrom(lines, pos, vms))
    ensures cut ==> Collect(lines) == EndOfInput(log2)
    ensures !cut ==> pos < next <= |lines| && seen2 == Names(vms2)
    ensures !cut ==> Collect(lines) == Logged(log2, CollectFrom(lines, next, vms2))
  {
    var name := Strip(lines[pos]);
    var rec := ReadFields(lines, pos + 1, name);
    RecordStep(lines, pos, vms, log, rec);
    if rec.Cut? {
      return true, vms, seenNames, log + rec.log, pos;
    }
    vms2, seen2, next := vms, seenNames, rec.next;
    match rec.built {
      case Success(vm) =>
        NamesAppend(vms, vm);
        log2 := log + (rec.log + [Event(Info, AddedVm(vm))]);
        vms2 := vms + [vm];
        seen2 := seenNames + {name};
      case Failure(e) =>
        log2 := log + (rec.log + [Event(Error, ConstructionFailed(e))]);
    }
    cut := false;
  }

  /** The sentinel line in the loop of `get_vm_details`. */
  lemma SentinelStep(lines: seq<string>, pos: nat, vms: seq<Machine>, log: seq<Event>)
    requires pos < |lines| && IsSentinel(lines[pos])
    requires Collect(lines) == Logged(log, CollectFrom(lines, pos, vms))
    ensures Collect(lines) == Collected(vms, log + [Event(Info, EntryFinished(|vms|))], pos + 1)
  {
    SentinelEndsEntry(lines, pos, vms);
  }

  /** An empty or repeated name in the loop of `get_vm_details`. */
  lemma SkipStep(lines: seq<string>, pos: nat, vms: seq<Machine>, log: seq<Event>)
    requires pos < |lines| && !IsSentinel(lines[pos])
    requires Strip(lines[pos]) == "" || Strip(lines[pos]) in Names(vms)
    requires Collect(lines) == Logged(log, CollectFrom(lines, pos, vms))
    ensures Collect(lines) == Logged(log + [SkipNote(Strip(lines[pos]))], CollectFrom(lines, pos + 1, vms))
  {
    RejectedNameSkipsOneLine(lines, pos, vms);
    LoggedTwice(log, [SkipNote(Strip(lines[pos]))], CollectFrom(lines, pos + 1, vms));
  }

  /** A fresh name and the record read after it, in the loop of `get_vm_details`. */
  lemma RecordStep(lines: seq<string>, pos: nat, vms: seq<Machine>, log: seq<Event>, rec: Record)
    requires pos < |lines| && !IsSentinel(lines[pos])
    requires Strip(lines[pos]) != "" && Strip(lines[pos]) !in Names(vms)
    requires rec == ReadRecord(lines, pos + 1, Strip(lines[pos]))
    requires Collect(lines) == Logged(log, CollectFrom(lines, pos, vms))
    ensures rec.Cut? ==> Collect(lines) == EndOfInput(log + rec.log)
    ensures rec.Read? && rec.built.Success? ==>
              Collect(lines) == Logged(log + (rec.log + [Event(Info, AddedVm(rec.built.value))]),
                                       CollectFrom(lines, rec.next, vms + [rec.built.value]))
    ensures rec.Read? && rec.built.Failure? ==>
              Collect(lines) == Logged(log + (rec.log + [Event(Error, ConstructionFailed(rec.built.error))]),
                                       CollectFrom(lines, rec.next, vms))
    ensures rec.Read? ==> pos < rec.next <= |lines|
  {
    FreshNameStep(lines, pos, vms, rec);
    if rec.Read? {
      var note := match rec.built
        case Success(vm) => Event(Info, AddedVm(vm))
        case Failure(e) => Event(Error, ConstructionFailed(e));
      var kept := if rec.built.Success? then vms + [rec.built.value] else vms;
      LoggedTwice(log, rec.log + [note], CollectFrom(lines, rec.next, kept));
    }
  }

  /** Whatever `get_vm_details` returns is sound, and it stopped on a line of the input. */
  lemma CollectSound(lines: seq<string>)
    ensures Collect(lines).Collected? ==> Sound(Collect(lines).machines)
    ensures Collect(lines).Collected? ==> 0 < Collect(lines).next <= |lines|
  {
    CollectFromSound(lines, 0, []);
  }

  /** A collection that extends `vms`, is sound, and ended on a line after `pos`. */
  predicate KeptSound(c: Collection, vms: seq<Machine>, pos: nat, end: nat) {
    c.Collected? ==> Sound(c.machines) && vms <= c.machines && pos < c.next <= end
  }

  /** Whatever was collected before stays first and in order, and the result
      is sound when the start was. */
  lemma {:induction false} CollectFromSound(lines: seq<string>, pos: nat, vms: seq<Machine>)
    requires pos <= |lines| && Sound(vms)
    ensures KeptSound(CollectFrom(lines, pos, vms), vms, pos, |lines|)
    decreases |lines| - pos, 1
  {
    if pos == |lines| {
      assert CollectFrom(lines, pos, vms) == EndOfInput([]);
    } else if IsSentinel(lines[pos]) {
      assert CollectFrom(lines, pos, vms) == Collected(vms, [Event(Info, EntryFinished(|vms|))], pos + 1);
    } else if Strip(lines[pos]) == "" || Strip(lines[pos]) in Names(vms) {
      SkippedNameSound(lines, pos, vms);
    } else {
      RecordSound(lines, pos, vms);
    }
  }

  /** The case of an empty or repeated name in `CollectFromSound`. */
  lemma {:induction false} SkippedNameSound(lines: seq<string>, pos: nat, vms: seq<Machine>)
    requires pos < |lines| && Sound(vms)
    requires !IsSentinel(lines[pos])
    requires Strip(lines[pos]) == "" || Strip(lines[pos]) in Names(vms)
    ensures KeptSound(CollectFrom(lines, pos, vms), vms, pos, |lines|)
    decreases |lines| - pos, 0
  {
    RejectedNameSkipsOneLine(lines, pos, vms);
    CollectFromSound(lines, pos + 1, vms);
  }

  /** The case of a fresh name in `CollectFromSound`. */
  lemma {:induction false} RecordSound(lines: seq<string>, pos: nat, vms: seq<Machine>)
    requires pos < |lines| && Sound(vms)
    requires !IsSentinel(lines[pos])
    requires Strip(lines[pos]) != "" && Strip(lines[pos]) !in Names(vms)
    ensures KeptSound(CollectFrom(lines, pos, vms), vms, pos, |lines|)
    decreases |lines| - pos, 0
  {
    var name := Strip(lines[pos]);
    RecordAlwaysBuilds(lines, pos + 1, name);
    var rec := ReadRecord(lines, pos + 1, name);
    if rec.Read? {
      var vm := rec.built.value;
      var rest := CollectFrom(lines, rec.next, vms + [vm]);
      assert CollectFrom(lines, pos, vms) == Logged(rec.log + [Event(Info, AddedVm(vm))], rest);
      SoundAppend(vms, vm);
      CollectFromSound(lines, rec.next, vms + [vm]);
    } else {
      assert CollectFrom(lines, pos, vms) == EndOfInput(rec.log);
    }
  }

  /** The warning for a name that is skipped: empty, or already seen. */
  function SkipNote(name: string): Event {
    if name == "" then Event(Warning, EmptyMachineName) else Event(Warning, DuplicateName(name))
  }

  /** An empty or repeated name costs one line and one warning: no field is
      asked for, and neither the list nor the seen names change. */
  lemma RejectedNameSkipsOneLine(lines: seq<string>, pos: nat, vms: seq<Machine>)
    requires pos < |lines| && !IsSentinel(lines[pos])
    requires Strip(lines[pos]) == "" || Strip(lines[pos]) in Names(vms)
    ensures CollectFrom(lines, pos, vms) == Logged([SkipNote(Strip(lines[pos]))], CollectFrom(lines, pos + 1, vms))
  {
  }

  /** A fresh name whose fields are all answered becomes the next machine of
      the list, right after those collected before it, under that name. */
  lemma {:induction false} FreshNameComesNext(lines: seq<string>, pos: nat, vms: seq<Machine>)
    requires pos < |lines| && Sound(vms)
    requires !IsSentinel(lines[pos])
    requires Strip(lines[pos]) != "" && Strip(lines[pos]) !in Names(vms)
    ensures CollectFrom(lines, pos, vms).Collected? ==> |CollectFrom(lines, pos, vms).machines| > |vms|
    ensures CollectFrom(lines, pos, vms).Collected? && |CollectFrom(lines, pos, vms).machines| > |vms| ==>
              CollectFrom(lines, pos, vms).machines[|vms|].name == Strip(lines[pos])
  {
    var name := Strip(lines[pos]);
    RecordAlwaysBuilds(lines, pos + 1, name);
    var rec := ReadRecord(lines, pos + 1, name);
    if rec.Read? {
      var vm := rec.built.value;
      var rest := CollectFrom(lines, rec.next, vms + [vm]);
      assert CollectFrom(lines, pos, vms) == Logged(rec.log + [Event(Info, AddedVm(vm))], rest);
      SoundAppend(vms, vm);
      CollectFromSound(lines, rec.next, vms + [vm]);
      if rest.Collected? {
        assert (vms + [vm])[|vms|] == vm;
      }
    } else {
      assert CollectFrom(lines, pos, vms) == EndOfInput(rec.log);
    }
  }

  /** The sentinel ends the entry at once, whatever was collected, and the
      last event reports how many machines there are. */
  lemma SentinelEndsEntry(lines: seq<string>, pos: nat, vms: seq<Machine>)
    requires pos < |lines| && IsSentinel(lines[pos])
    ensures CollectFrom(lines, pos, vms) == Collected(vms, [Event(Info, EntryFinished(|vms|))], pos + 1)
  {
  }

  /** One fresh name in `CollectFrom`: the record read after it decides
      between the end of input, an appended machine and a discarded record. */
  lemma FreshNameStep(lines: seq<string>, pos: nat, vms: seq<Machine>, rec: Record)
    requires pos < |lines| && !IsSentinel(lines[pos])
    requires Strip(lines[pos]) != "" && Strip(lines[pos]) !in Names(vms)
    requires rec == ReadRecord(lines, pos + 1, Strip(lines[pos]))
    ensures rec.Cut? ==> CollectFrom(lines, pos, vms) == EndOfInput(rec.log)
    ensures rec.Read? && rec.built.Success? ==>
              CollectFrom(lines, pos, vms)
              == Logged(rec.log + [Event(Info, AddedVm(rec.built.value))], CollectFrom(lines, rec.next, vms + [rec.built.value]))
    ensures rec.Read? && rec.built.Failure? ==>
              CollectFrom(lines, pos, vms)
              == Logged(rec.log + [Event(Error, ConstructionFailed(rec.built.error))], CollectFrom(lines, rec.next, vms))
  {
  }

  /** Three field lines each accepted at the first attempt make a record of
      exactly those values, with no warning. */
  lemma AcceptedFieldsMakeRecord(lines: seq<string>, pos: nat, name: string, os: string, cpu: int, ram: int)
    requires pos + 3 <= |lines|
    requires Judge(OsPrompt, lines[pos]) == Accept(Text(os))
    requires Judge(RangePrompt(CpuMin, CpuMax), lines[pos + 1]) == Accept(Number(cpu))
    requires Judge(RangePrompt(RamMin, RamMax), lines[pos + 2]) == Accept(Number(ram))
    ensures ReadRecord(lines, pos, name) == Read(NewMachine(name, os, cpu, ram), [], pos + 3)
  {
    FirstLineAccepted(lines, pos, OsPrompt, Text(os));
    FirstLineAccepted(lines, pos + 1, RangePrompt(CpuMin, CpuMax), Number(cpu));
    FirstLineAccepted(lines, pos + 2, RangePrompt(RamMin, RamMax), Number(ram));
  }

  /** A block of four lines, a fresh name followed by fields each accepted at
      the first attempt, adds exactly the machine they describe and logs only
      its addition. */
  lemma WellFormedBlockAddsMachine(lines: seq<string>, pos: nat, vms: seq<Machine>, vm: Machine)
    requires pos + 4 <= |lines| && Valid(vm)
    requires !IsSentinel(lines[pos]) && Strip(lines[pos]) == vm.name && vm.name !in Names(vms)
    requires Judge(OsPrompt, lines[pos + 1]) == Accept(Text(vm.os))
    requires Judge(RangePrompt(CpuMin, CpuMax), lines[pos + 2]) == Accept(Number(vm.cpu))
    requires Judge(RangePrompt(RamMin, RamMax), lines[pos + 3]) == Accept(Number(vm.ramGb))
    ensures CollectFrom(lines, pos, vms) == Logged([Event(Info, AddedVm(vm))], CollectFrom(lines, pos + 4, vms + [vm]))
  {
    AcceptedFieldsMakeRecord(lines, pos + 1, vm.name, vm.os, vm.cpu, vm.ramGb);
    assert NewMachine(vm.name, vm.os, vm.cpu, vm.ramGb) == Success(vm);
    var rec := ReadRecord(lines, pos + 1, Strip(lines[pos]));
    assert rec == Read(Success(vm), [], pos + 4);
    FreshNameStep(lines, pos, vms, rec);
    assert rec.log + [Event(Info, AddedVm(vm))] == [Event(Info, AddedVm(vm))];
  }

  /** The events `get_vm_details` and its prompts can log. */
  predicate IsEntryEvent(e: Event) {
    e.tag.EntryStarted? || e.tag.EntryFinished? || e.tag.EmptyValue? || e.tag.InvalidOs?
    || e.tag.NotAnInteger? || e.tag.OutOfRange? || e.tag.EmptyMachineName?
    || e.tag.DuplicateName? || e.tag.ConstructionFailed? || e.tag.AddedVm?
  }

  /** Every rejection warns with an entry event. */
  lemma JudgeWarnsWithEntryEvent(prompt: Prompt, line: string)
    ensures Judge(prompt, line).Reject? ==> IsEntryEvent(Judge(prompt, line).warning)
  {
  }

  /** A prompt logs nothing but the warnings of its rejections. */
  lemma AskSpecLogsEntryEvents(lines: seq<string>, pos: nat, prompt: Prompt)
    requires pos <= |lines|
    ensures forall e :: e in AskSpec(lines, pos, prompt).warnings ==> IsEntryEvent(e)
  {
    AskSpecLogsEachRejection(lines, pos, prompt);
    var a := AskSpec(lines, pos, prompt);
    forall e | e in a.warnings ensures IsEntryEvent(e) {
      var j :| 0 <= j < |a.warnings| && a.warnings[j] == e;
      JudgeWarnsWithEntryEvent(prompt, lines[pos + j]);
    }
  }

  /** The three field prompts of a record log only entry events. */
  lemma RecordLogsEntryEvents(lines: seq<string>, pos: nat, name: string)
    requires pos <= |lines|
    ensures forall e :: e in ReadRecord(lines, pos, name).log ==> IsEntryEvent(e)
  {
    AskSpecAnswerFits(lines, pos, OsPrompt);
    AskSpecLogsEntryEvents(lines, pos, OsPrompt);
    var os := AskSpec(lines, pos, OsPrompt);
    if os.Answered? {
      AskSpecAnswerFits(lines, os.next, RangePrompt(CpuMin, CpuMax));
      AskSpecLogsEntryEvents(lines, os.next, RangePrompt(CpuMin, CpuMax));
      var cpu := AskSpec(lines, os.next, RangePrompt(CpuMin, CpuMax));
      if cpu.Answered? {
        AskSpecLogsEntryEvents(lines, cpu.next, RangePrompt(RamMin, RamMax));
      }
    }
  }

  /** The loop of `get_vm_details` logs only entry events. */
  lemma {:induction false} CollectFromLogsEntryEvents(lines: seq<string>, pos: nat, vms: seq<Machine>)
    requires pos <= |lines|
    ensures forall e :: e in CollectFrom(lines, pos, vms).log ==> IsEntryEvent(e)
    decreases |lines| - pos
  {
    if pos == |lines| {
      assert CollectFrom(lines, pos, vms) == EndOfInput([]);
    } else if IsSentinel(lines[pos]) {
      SentinelEndsEntry(lines, pos, vms);
    } else if Strip(lines[pos]) == "" || Strip(lines[pos]) in Names(vms) {
      RejectedNameSkipsOneLine(lines, pos, vms);
      CollectFromLogsEntryEvents(lines, pos + 1, vms);
    } else {
      var rec := ReadRecord(lines, pos + 1, Strip(lines[pos]));
      FreshNameStep(lines, pos, vms, rec);
      RecordLogsEntryEvents(lines, pos + 1, Strip(lines[pos]));
      if rec.Read? {
        var kept := if rec.built.Success? then vms + [rec.built.value] else vms;
        CollectFromLogsEntryEvents(lines, rec.next, kept);
      }
    }
  }

  /** Everything `get_vm_details` logs is an entry event: it never reports on
      saving or on the installer. */
  lemma CollectLogsOnlyEntryEvents(lines: seq<string>)
    ensures forall e :: e in Collect(lines).log ==> IsEntryEvent(e)
  {
    CollectFromLogsEntryEvents(lines, 0, []);
  }
}
