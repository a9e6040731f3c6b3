// ov::ipv6::Checker: which IP versions the host supports, derived once from
// the outcome of an IPv4 and an IPv6 loopback bind probe. The probes
// themselves (socket, setsockopt, bind) are system calls and enter the model
// as their outcome: no error, or the error they reported.

module Ipv6Support {
  import opened Strings
  import opened MemoryUtilities

  /** The `Version` enumerators and their underlying ints. */
  const VersionNone: nat := 0x00
  const VersionIPv4: nat := 0x01
  const VersionIPv6: nat := 0x02
  const VersionBoth: nat := 0x03

  /** An `ov::Error` as ToString prints it: its message and its code. */
  datatype Error = Error(message: string, code: int)

  /** `operator|` on Version: the bitwise or of the underlying ints. */
  function Or(a: nat, b: nat): (r: nat)
    decreases a
  {
    if a == 0 then b
    else if b == 0 then a
    else 2 * Or(a / 2, b / 2) + (if a % 2 == 1 || b % 2 == 1 then 1 else 0)
  }

  /** Bit i of `a | b` is set iff bit i of a or of b is. */
  lemma {:induction false} BitOfOr(a: nat, b: nat, i: nat)
    ensures Bit(Or(a, b), i) == if Bit(a, i) == 1 || Bit(b, i) == 1 then 1 else 0
    decreases a
  {
    if a == 0 {
      BitOfZero(i);
      BitIsBinary(b, i);
    } else if b == 0 {
      BitOfZero(i);
      BitIsBinary(a, i);
    } else if i > 0 {
      BitOfOr(a / 2, b / 2, i - 1);
    }
  }

  lemma {:induction false} BitIsBinary(v: nat, i: nat)
    ensures Bit(v, i) == 0 || Bit(v, i) == 1
  {
    if i > 0 {
      BitIsBinary(v / 2, i - 1);
    }
  }

  /**
   * The version the constructor computes: IPv4 when the IPv4 probe succeeded
   * or both failed (the fallback), or-ed with IPv6 when the IPv6 probe succeeded.
   */
  function DerivedVersion(ipv4Ok: bool, ipv6Ok: bool): (v: nat)
    ensures Bit(v, 0) == 1 <==> ipv4Ok || !ipv6Ok
    ensures Bit(v, 1) == 1 <==> ipv6Ok
    ensures v < 4
  {
    var fallback := !ipv4Ok && !ipv6Ok;
    var v4 := Or(VersionNone, if fallback || ipv4Ok then VersionIPv4 else VersionNone);
    Or(v4, if ipv6Ok then VersionIPv6 else VersionNone)
  }

  /** The version is never None, and it is Both exactly when both probes succeed. */
  lemma DerivedVersionValues(ipv4Ok: bool, ipv6Ok: bool)
    ensures DerivedVersion(ipv4Ok, ipv6Ok) != VersionNone
    ensures DerivedVersion(ipv4Ok, ipv6Ok) == VersionBoth <==> ipv4Ok && ipv6Ok
    ensures DerivedVersion(ipv4Ok, ipv6Ok) == VersionIPv4 <==> !ipv6Ok
    ensures DerivedVersion(ipv4Ok, ipv6Ok) == VersionIPv6 <==> !ipv4Ok && ipv6Ok
  {
    var v := DerivedVersion(ipv4Ok, ipv6Ok);
    assert v == 2 * (v / 2) + Bit(v, 0);
    assert Bit(v, 1) == (v / 2) % 2;
  }

  /** `%d` of an int. */
  function IntText(i: int): string
  {
    if i < 0 then "-" + Decimal(-i) else Decimal(i)
  }

  /** `%s[%d]` of an error. */
  function Reason(e: Error): string
  {
    e.message + "[" + IntText(e.code) + "]"
  }

  /**
   * `Checker::ToString` on the checker's fields; the requires are the
   * `OV_ASSERT2` checks of each branch.
   */
  function Describe(ipv4Error: Option<Error>, ipv6Error: Option<Error>, isFallback: bool, version: nat): (r: string)
    requires version == VersionNone ==> ipv4Error.Some? && ipv6Error.Some?
    requires version == VersionIPv4 ==> ipv6Error.Some? && (isFallback ==> ipv4Error.Some?)
    requires version == VersionIPv6 ==> ipv4Error.Some?
    ensures r != [] && (r[0] == 'N' <==> version == VersionNone)
    ensures r == "IPv4 and IPv6" <==> version == VersionBoth
    ensures r == "Unknown" <==> version > VersionBoth
  {
    if version == VersionNone then
      var s := "None (reason: v4: " + (Reason(ipv4Error.value) + ", v6: " + Reason(ipv6Error.value) + ")");
      assert s[0] == 'N';
      s
    else if version == VersionIPv4 then
      var reason := if isFallback then
        "fallbacked, reason: v4: " + Reason(ipv4Error.value) + ", v6: " + Reason(ipv6Error.value) + ")"
      else
        "reason: v6: " + Reason(ipv6Error.value) + ")";
      var s := "IPv4 only (" + reason;
      assert s[5] == 'o' && s[0] == 'I';
      s
    else if version == VersionIPv6 then
      var s := "IPv6 only (reason: v4: " + (Reason(ipv4Error.value) + ")");
      assert s[3] == '6' && s[0] == 'I';
      s
    else if version == VersionBoth then
      "IPv4 and IPv6"
    else
      "Unknown"
  }

  class Checker {
    var ipv4Error: Option<Error>
    var ipv6Error: Option<Error>
    var isFallback: bool
    var version: nat

    /** What the constructor establishes and nothing afterwards changes. */
    predicate Valid()
      reads this
    {
      isFallback == (ipv4Error.Some? && ipv6Error.Some?) &&
      version == DerivedVersion(ipv4Error.None?, ipv6Error.None?)
    }

    /** `Checker::Checker()`, given the outcomes of the IPv4 and IPv6 probes. */
    constructor(ipv4Probe: Option<Error>, ipv6Probe: Option<Error>)
      ensures Valid()
      ensures ipv4Error == ipv4Probe && ipv6Error == ipv6Probe
      ensures isFallback <==> ipv4Probe.Some? && ipv6Probe.Some?
      ensures IsIPv4Supported() <==> isFallback || ipv4Probe.None?
      ensures IsIPv6Supported() <==> ipv6Probe.None?
    {
      ipv4Error := ipv4Probe;
      ipv6Error := ipv6Probe;
      isFallback := false;
      version := VersionNone;
      new;
      if ipv4Error.Some? && ipv6Error.Some? {
        isFallback := true;
      }
      version := Or(version, if isFallback || ipv4Error.None? then VersionIPv4 else VersionNone);
      version := Or(version, if ipv6Error.None? then VersionIPv6 else VersionNone);
      CheckFlagMeans(version, VersionIPv4);
      CheckFlagMeans(version, VersionIPv6);
      BitsCoveredSingle(version, 0);
      BitsCoveredSingle(version, 1);
    }

    /** `IsIPv4Supported()`: `CheckFlag(_version, Version::IPv4)`. */
    predicate IsIPv4Supported()
      reads this
    {
      CheckFlag(version, VersionIPv4)
    }

    /** `IsIPv6Supported()`: `CheckFlag(_version, Version::IPv6)`. */
    predicate IsIPv6Supported()
      reads this
    {
      CheckFlag(version, VersionIPv6)
    }

    /** `Checker::ToString()`. */
    function ToString(): (r: string)
      reads this
      requires Valid()
      ensures r != "Unknown"
      ensures r == "IPv4 and IPv6" <==> ipv4Error.None? && ipv6Error.None?
      ensures r != [] && r[0] != 'N'
    {
      DerivedVersionValues(ipv4Error.None?, ipv6Error.None?);
      Describe(ipv4Error, ipv6Error, isFallback, version)
    }
  }

  /** A flag of the single bit k is covered exactly when bit k is set. */
  lemma BitsCoveredSingle(x: nat, k: nat)
    requires k <= 1
    ensures BitsCovered(x, if k == 0 then 1 else 2) <==> Bit(x, k) == 1
  {
    var f := if k == 0 then 1 else 2;
    if Bit(x, k) == 1 {
      forall i: nat | Bit(f, i) == 1
        ensures Bit(x, i) == 1
      {
        if i > 1 {
          BitOfZero(i - 1);
          assert Bit(f, i) == Bit(0, i - 1);
        }
      }
    }
    assert Bit(f, k) == 1;
  }

  /** The IPv4 flag is set iff the fallback applies or the IPv4 probe succeeded; IPv6 iff its probe did. */
  lemma SupportFlags(ipv4Ok: bool, ipv6Ok: bool)
    ensures CheckFlag(DerivedVersion(ipv4Ok, ipv6Ok), VersionIPv4) <==> ipv4Ok || !ipv6Ok
    ensures CheckFlag(DerivedVersion(ipv4Ok, ipv6Ok), VersionIPv6) <==> ipv6Ok
  {
    var v := DerivedVersion(ipv4Ok, ipv6Ok);
    CheckFlagMeans(v, VersionIPv4);
    CheckFlagMeans(v, VersionIPv6);
    BitsCoveredSingle(v, 0);
    BitsCoveredSingle(v, 1);
  }
}
