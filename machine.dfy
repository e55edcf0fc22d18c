/** The `Machine` record of src/machine.py: its OS table, its validation on
    construction and its conversion to a plain mapping. */
module Machines {
  import opened Wrappers
  import opened Text

  /** The allowed operating systems, lower-case key to canonical value, in the
      order Python iterates the dictionary. */
  const AllowedOses: seq<(string, string)> := [("ubuntu", "Ubuntu"), ("centos", "CentOS")]

  const CpuMin := 1
  const CpuMax := 64
  const RamMin := 1
  const RamMax := 512

  datatype Machine = Machine(name: string, os: string, cpu: int, ramGb: int)

  /** `os in ALLOWED_OSES.values()`: a canonical value, compared case-sensitively. */
  predicate IsCanonicalOs(os: string) {
    exists i :: 0 <= i < |AllowedOses| && AllowedOses[i].1 == os
  }

  /** The invariant every constructed machine satisfies. */
  predicate Valid(m: Machine) {
    m.name != "" && IsCanonicalOs(m.os) && CpuMin <= m.cpu <= CpuMax && RamMin <= m.ramGb <= RamMax
  }

  /** The four rules checked on construction, one `ValueError` each. */
  datatype ValidationError = EmptyName | OsNotAllowed | CpuOutOfRange | RamOutOfRange

  /** The position of a rule in the order the checks are made. */
  function Rank(e: ValidationError): nat {
    match e
    case EmptyName => 0
    case OsNotAllowed => 1
    case CpuOutOfRange => 2
    case RamOutOfRange => 3
  }

  /** Whether the given field values break rule `e`. */
  predicate Violates(e: ValidationError, name: string, os: string, cpu: int, ramGb: int) {
    match e
    case EmptyName => name == ""
    case OsNotAllowed => !IsCanonicalOs(os)
    case CpuOutOfRange => !(CpuMin <= cpu <= CpuMax)
    case RamOutOfRange => !(RamMin <= ramGb <= RamMax)
  }

  /** `Machine(name=..., os=..., cpu=..., ram_gb=...)`: all or nothing. It succeeds
      exactly when the record is valid, and otherwise reports the first rule
      broken, in the order name, os, cpu, ram_gb. */
  function NewMachine(name: string, os: string, cpu: int, ramGb: int): (r: Result<Machine, ValidationError>)
    ensures r.Success? <==> Valid(Machine(name, os, cpu, ramGb))
    ensures r.Success? ==> r.value == Machine(name, os, cpu, ramGb)
    ensures r.Failure? ==> Violates(r.error, name, os, cpu, ramGb)
    ensures r.Failure? ==> forall e :: Rank(e) < Rank(r.error) ==> !Violates(e, name, os, cpu, ramGb)
  {
    if name == "" then Failure(EmptyName)
    else if os !in [AllowedOses[0].1, AllowedOses[1].1] then Failure(OsNotAllowed)
    else if !(CpuMin <= cpu <= CpuMax) then Failure(CpuOutOfRange)
    else if !(RamMin <= ramGb <= RamMax) then Failure(RamOutOfRange)
    else Success(Machine(name, os, cpu, ramGb))
  }

  /** A record is refused exactly when some rule is broken. */
  lemma RefusedIffSomeRuleBroken(name: string, os: string, cpu: int, ramGb: int)
    ensures NewMachine(name, os, cpu, ramGb).Failure?
        <==> exists e :: Violates(e, name, os, cpu, ramGb)
  {
    var r := NewMachine(name, os, cpu, ramGb);
    if r.Failure? {
      assert Violates(r.error, name, os, cpu, ramGb);
    }
  }

  /** When exactly one rule is broken, that rule is the one reported. */
  lemma SingleViolationReported(e: ValidationError, name: string, os: string, cpu: int, ramGb: int)
    requires Violates(e, name, os, cpu, ramGb)
    requires forall f :: f != e ==> !Violates(f, name, os, cpu, ramGb)
    ensures NewMachine(name, os, cpu, ramGb) == Failure(e)
  {
    var r := NewMachine(name, os, cpu, ramGb);
    assert r.Failure? by {
      assert !Valid(Machine(name, os, cpu, ramGb)) by {
        match e
        case EmptyName =>
        case OsNotAllowed =>
        case CpuOutOfRange =>
        case RamOutOfRange =>
      }
    }
  }

  /** The OS check is on canonical values: the lower-case keys are refused,
      and the canonical values accepted. */
  lemma OsCheckIsCaseSensitive()
    ensures NewMachine("web1", "ubuntu", 2, 4) == Failure(OsNotAllowed)
    ensures NewMachine("web1", "centos", 2, 4) == Failure(OsNotAllowed)
    ensures NewMachine("web1", "Ubuntu", 2, 4).Success?
    ensures NewMachine("db1", "CentOS", 8, 32).Success?
  {
    assert !IsCanonicalOs("ubuntu") by {
      assert AllowedOses[0].1 != "ubuntu" by { assert AllowedOses[0].1[0] != "ubuntu"[0]; }
      assert AllowedOses[1].1 != "ubuntu" by { assert AllowedOses[1].1[0] != "ubuntu"[0]; }
    }
    assert !IsCanonicalOs("centos") by {
      assert AllowedOses[0].1 != "centos" by { assert AllowedOses[0].1[0] != "centos"[0]; }
      assert AllowedOses[1].1 != "centos" by { assert AllowedOses[1].1[0] != "centos"[0]; }
    }
    assert AllowedOses[0].1 == "Ubuntu";
    assert AllowedOses[1].1 == "CentOS";
  }

  /** The closed ranges of cpu and ram_gb, at their edges. */
  lemma RangeBoundaries(name: string, os: string)
    requires name != "" && IsCanonicalOs(os)
    ensures NewMachine(name, os, 1, 4).Success? && NewMachine(name, os, 64, 4).Success?
    ensures NewMachine(name, os, 0, 4) == Failure(CpuOutOfRange)
    ensures NewMachine(name, os, 65, 4) == Failure(CpuOutOfRange)
    ensures NewMachine(name, os, 2, 1).Success? && NewMachine(name, os, 2, 512).Success?
    ensures NewMachine(name, os, 2, 0) == Failure(RamOutOfRange)
    ensures NewMachine(name, os, 2, 513) == Failure(RamOutOfRange)
  {
  }

  /** The OS table: exactly two entries, each key the lower-case form of its
      canonical value, and keys with different first letters. */
  lemma AllowedOsesShape()
    ensures |AllowedOses| == 2
    ensures AllowedOses[0] == ("ubuntu", "Ubuntu") && AllowedOses[1] == ("centos", "CentOS")
    ensures forall i :: 0 <= i < |AllowedOses| ==> Lower(AllowedOses[i].1) == AllowedOses[i].0
    ensures AllowedOses[0].0[0] != AllowedOses[1].0[0]
  {
    assert Lower("Ubuntu") == "ubuntu";
    assert Lower("CentOS") == "centos";
  }

  /** A value in a JSON document: a string or an integer. */
  datatype JsonValue = JString(s: string) | JInt(n: int)

  /** A mapping with string keys, in insertion order. */
  type Dict = seq<(string, JsonValue)>

  /** `d[key]` on an insertion-ordered mapping: the first entry with that key. */
  function Lookup(d: Dict, key: string): Option<JsonValue> {
    if d == [] then None
    else if d[0].0 == key then Some(d[0].1)
    else Lookup(d[1..], key)
  }

  function Keys(d: Dict): (ks: seq<string>)
    ensures |ks| == |d| && forall i :: 0 <= i < |d| ==> ks[i] == d[i].0
  {
    if d == [] then [] else [d[0].0] + Keys(d[1..])
  }

  /** `Machine.to_dict`: exactly the keys name, os, cpu, ram_gb, in that order,
      each holding its field unchanged. */
  function ToDict(m: Machine): (d: Dict)
    ensures Keys(d) == ["name", "os", "cpu", "ram_gb"]
    ensures Lookup(d, "name") == Some(JString(m.name))
    ensures Lookup(d, "os") == Some(JString(m.os))
    ensures Lookup(d, "cpu") == Some(JInt(m.cpu))
    ensures Lookup(d, "ram_gb") == Some(JInt(m.ramGb))
  {
    var d := [("name", JString(m.name)), ("os", JString(m.os)), ("cpu", JInt(m.cpu)), ("ram_gb", JInt(m.ramGb))];
    assert d[1..] == [("os", JString(m.os)), ("cpu", JInt(m.cpu)), ("ram_gb", JInt(m.ramGb))];
    assert d[1..][1..] == [("cpu", JInt(m.cpu)), ("ram_gb", JInt(m.ramGb))];
    assert d[1..][1..][1..] == [("ram_gb", JInt(m.ramGb))];
    assert Lookup(d[1..][1..], "cpu") == Some(JInt(m.cpu));
    assert Lookup(d[1..][1..][1..], "ram_gb") == Some(JInt(m.ramGb));
    assert Lookup(d[1..][1..], "ram_gb") == Some(JInt(m.ramGb));
    assert Lookup(d[1..], "ram_gb") == Some(JInt(m.ramGb));
    d
  }

  /** The mapping loses nothing: two machines with the same mapping are the same machine. */
  lemma ToDictInjective(a: Machine, b: Machine)
    requires ToDict(a) == ToDict(b)
    ensures a == b
  {
    assert Lookup(ToDict(a), "name") == Lookup(ToDict(b), "name");
    assert Lookup(ToDict(a), "os") == Lookup(ToDict(b), "os");
    assert Lookup(ToDict(a), "cpu") == Lookup(ToDict(b), "cpu");
    assert Lookup(ToDict(a), "ram_gb") == Lookup(ToDict(b), "ram_gb");
  }
}
