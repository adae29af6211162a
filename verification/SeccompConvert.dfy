/**
 Converting the syscalls of a SeccompProfile to the OCI runtime-spec form and
 back, with the integer widths of both sides and Go's wrap-around between them.
 */
module SeccompConvert {

  import opened Wrappers

  const MAX_INT32 := 0x7FFF_FFFF
  const MAX_INT64 := 0x7FFF_FFFF_FFFF_FFFF
  const TWO_64 := 0x1_0000_0000_0000_0000

  type Int32 = x: int | -0x8000_0000 <= x <= 0x7FFF_FFFF
  type Int64 = x: int | -0x8000_0000_0000_0000 <= x <= 0x7FFF_FFFF_FFFF_FFFF
  type Uint64 = x: int | 0 <= x < 0x1_0000_0000_0000_0000

  datatype Arg = Arg(index: Option<Int32>, value: Int64, valueTwo: Int64, op: string)

  datatype Syscall = Syscall(names: seq<string>, action: string, errnoRet: Int32, args: seq<Arg>)

  datatype OciArg = OciArg(index: Uint64, value: Uint64, valueTwo: Uint64, op: string)

  /** The argument list of the runtime form may be nil, which is not an empty list. */
  datatype OciSyscall = OciSyscall(names: seq<string>, action: string, errnoRet: Option<Uint64>,
                                   args: Option<seq<OciArg>>)

  /** Conversion of a signed value to an unsigned 64 bit one. */
  function Unsigned(x: int): Uint64 {
    x % TWO_64
  }

  // ---------------------------------------------------------------- to the runtime form

  function ErrnoToOci(errno: Int32): Option<Uint64> {
    if errno <= 0 then None else Some(Unsigned(errno))
  }

  function ArgToOci(a: Arg): OciArg {
    OciArg(if a.index.Some? then Unsigned(a.index.value) else 0, Unsigned(a.value), Unsigned(a.valueTwo), a.op)
  }

  function OciArgList(args: seq<Arg>): Option<seq<OciArg>> {
    if args == [] then None else Some(seq(|args|, i requires 0 <= i < |args| => ArgToOci(args[i])))
  }

  function ToOci(s: Syscall): OciSyscall {
    OciSyscall(s.names, s.action, ErrnoToOci(s.errnoRet), OciArgList(s.args))
  }

  function OciList(syscalls: seq<Syscall>): seq<OciSyscall> {
    seq(|syscalls|, i requires 0 <= i < |syscalls| => ToOci(syscalls[i]))
  }

  method ArgsToOci(args: seq<Arg>) returns (r: Option<seq<OciArg>>)
    ensures r == OciArgList(args)
  {
    if |args| == 0 {
      return None;
    }
    var result: seq<OciArg> := [];
    for i := 0 to |args|
      invariant |result| == i && forall j | 0 <= j < i :: result[j] == ArgToOci(args[j])
    {
      var arg := args[i];
      var index := if arg.index.Some? then Unsigned(arg.index.value) else 0;
      result := result + [OciArg(index, Unsigned(arg.value), Unsigned(arg.valueTwo), arg.op)];
    }
    assert result == OciArgList(args).value;
    return Some(result);
  }

  method SyscallsToOci(syscalls: seq<Syscall>) returns (r: seq<OciSyscall>)
    ensures r == OciList(syscalls)
  {
    r := [];
    for i := 0 to |syscalls|
      invariant |r| == i && forall j | 0 <= j < i :: r[j] == ToOci(syscalls[j])
    {
      var args := ArgsToOci(syscalls[i].args);
      r := r + [OciSyscall(syscalls[i].names, syscalls[i].action, ErrnoToOci(syscalls[i].errnoRet), args)];
    }
  }

  // ---------------------------------------------------------------- from the runtime form

  predicate ArgFits(a: OciArg) {
    a.index <= MAX_INT32 && a.value <= MAX_INT64 && a.valueTwo <= MAX_INT64
  }

  function Args(s: OciSyscall): seq<OciArg> {
    if s.args.Some? then s.args.value else []
  }

  /** The values of a runtime syscall the API can hold. */
  predicate Fits(s: OciSyscall) {
    && (s.errnoRet.Some? ==> s.errnoRet.value <= MAX_INT32)
    && forall i | 0 <= i < |Args(s)| :: ArgFits(Args(s)[i])
  }

  function ArgFromOci(a: OciArg): Arg
    requires ArgFits(a)
  {
    Arg(Some(a.index), a.value, a.valueTwo, a.op)
  }

  function FromOci(s: OciSyscall): Syscall
    requires Fits(s)
  {
    Syscall(s.names, s.action, if s.errnoRet.Some? then s.errnoRet.value else 0,
            seq(|Args(s)|, i requires 0 <= i < |Args(s)| => ArgFromOci(Args(s)[i])))
  }

  /** The API form of a list whose values all fit, and nothing for any other list. */
  function ApiList(syscalls: seq<OciSyscall>): Option<seq<Syscall>> {
    if forall i | 0 <= i < |syscalls| :: Fits(syscalls[i])
    then Some(seq(|syscalls|, i requires 0 <= i < |syscalls| => FromOci(syscalls[i])))
    else None
  }

  method ArgsFromOci(args: seq<OciArg>) returns (r: Option<seq<Arg>>)
    ensures r.None? <==> exists i | 0 <= i < |args| :: !ArgFits(args[i])
    ensures r.Some? ==> |r.value| == |args|
    ensures r.Some? ==> forall i | 0 <= i < |args| :: ArgFits(args[i]) && r.value[i] == ArgFromOci(args[i])
  {
    var result: seq<Arg> := [];
    for i := 0 to |args|
      invariant |result| == i
      invariant forall j | 0 <= j < i :: ArgFits(args[j]) && result[j] == ArgFromOci(args[j])
    {
      var arg := args[i];
      if arg.index > MAX_INT32 || arg.value > MAX_INT64 || arg.valueTwo > MAX_INT64 {
        assert !ArgFits(args[i]);
        return None;
      }
      result := result + [Arg(Some(arg.index), arg.value, arg.valueTwo, arg.op)];
    }
    return Some(result);
  }

  /** Fails exactly if an errno, an index or a value of some syscall is out of range. */
  method SyscallsFromOci(syscalls: seq<OciSyscall>) returns (r: Option<seq<Syscall>>)
    ensures r == ApiList(syscalls)
    ensures r.None? <==> exists i | 0 <= i < |syscalls| :: !Fits(syscalls[i])
  {
    var result: seq<Syscall> := [];
    for i := 0 to |syscalls|
      invariant |result| == i
      invariant forall j | 0 <= j < i :: Fits(syscalls[j]) && result[j] == FromOci(syscalls[j])
    {
      var s := syscalls[i];
      if s.errnoRet.Some? && s.errnoRet.value > MAX_INT32 {
        assert !Fits(syscalls[i]);
        return None;
      }
      var args := ArgsFromOci(Args(s));
      if args.None? {
        assert !Fits(syscalls[i]);
        return None;
      }
      result := result + [Syscall(s.names, s.action, if s.errnoRet.Some? then s.errnoRet.value else 0, args.value)];
      assert result[i].args == FromOci(s).args;
    }
    assert result == ApiList(syscalls).value;
    return Some(result);
  }

  // ---------------------------------------------------------------- round trips

  predicate ArgRepresentable(a: Arg) {
    a.index.Some? && a.index.value >= 0 && a.value >= 0 && a.valueTwo >= 0
  }

  /** No negative number and an index for every argument: all that the API validation accepts is such. */
  predicate Representable(s: Syscall) {
    s.errnoRet >= 0 && forall i | 0 <= i < |s.args| :: ArgRepresentable(s.args[i])
  }

  lemma {:induction false} UnsignedFits(x: Int64, max: int)
    requires 0 <= max <= MAX_INT64
    ensures Unsigned(x) <= max <==> 0 <= x <= max
    ensures 0 <= x ==> Unsigned(x) == x
  {
  }

  lemma {:induction false} ArgRoundTrip(a: Arg)
    ensures ArgFits(ArgToOci(a)) && ArgFromOci(ArgToOci(a)) == a <==> ArgRepresentable(a)
  {
    UnsignedFits(a.value, MAX_INT64);
    UnsignedFits(a.valueTwo, MAX_INT64);
    if a.index.Some? {
      UnsignedFits(a.index.value, MAX_INT32);
    }
  }

  lemma {:induction false} SyscallRoundTrip(s: Syscall)
    ensures Fits(ToOci(s)) && FromOci(ToOci(s)) == s <==> Representable(s)
  {
    var oci := ToOci(s);
    var args := Args(oci);
    assert |args| == |s.args| && forall i | 0 <= i < |args| :: args[i] == ArgToOci(s.args[i]);
    UnsignedFits(s.errnoRet, MAX_INT32);
    forall i | 0 <= i < |s.args|
      ensures ArgFits(args[i]) && ArgFromOci(args[i]) == s.args[i] <==> ArgRepresentable(s.args[i])
    {
      ArgRoundTrip(s.args[i]);
    }
    if Fits(oci) && FromOci(oci) == s {
      forall i | 0 <= i < |s.args|
        ensures ArgRepresentable(s.args[i])
      {
        assert FromOci(oci).args[i] == ArgFromOci(args[i]);
      }
    }
    if Representable(s) {
      assert FromOci(oci).args == s.args;
    }
  }

  /** Converting to the runtime form and back is the identity exactly on the representable lists. */
  lemma {:induction false} ApiRoundTrip(syscalls: seq<Syscall>)
    ensures ApiList(OciList(syscalls)) == Some(syscalls)
       <==> forall i | 0 <= i < |syscalls| :: Representable(syscalls[i])
  {
    var oci := OciList(syscalls);
    forall i | 0 <= i < |syscalls|
      ensures Fits(oci[i]) && FromOci(oci[i]) == syscalls[i] <==> Representable(syscalls[i])
    {
      SyscallRoundTrip(syscalls[i]);
    }
    if ApiList(oci) == Some(syscalls) {
      forall i | 0 <= i < |syscalls|
        ensures Representable(syscalls[i])
      {
        assert ApiList(oci).value[i] == FromOci(oci[i]);
      }
    }
    if forall i | 0 <= i < |syscalls| :: Representable(syscalls[i]) {
      assert ApiList(oci).value == syscalls;
    }
  }

  /** What a representable syscall is converted to: the same names, action, operators and numbers. */
  lemma {:induction false} ConvertedSpelled(s: Syscall)
    requires Representable(s)
    ensures var r := ToOci(s);
            && r.names == s.names && r.action == s.action
            && r.errnoRet == (if s.errnoRet == 0 then None else Some(s.errnoRet))
            && (if s.args == [] then r.args == None else r.args.Some? && |r.args.value| == |s.args|)
            && forall i | 0 <= i < |s.args| ::
                 var x, a := r.args.value[i], s.args[i];
                 x.index == a.index.value && x.value == a.value && x.valueTwo == a.valueTwo && x.op == a.op
  {
    UnsignedFits(s.errnoRet, MAX_INT32);
    forall i | 0 <= i < |s.args|
      ensures var x, a := ArgToOci(s.args[i]), s.args[i];
              x.index == a.index.value && x.value == a.value && x.valueTwo == a.valueTwo && x.op == a.op
    {
      assert ArgRepresentable(s.args[i]);
      UnsignedFits(s.args[i].value, MAX_INT64);
      UnsignedFits(s.args[i].valueTwo, MAX_INT64);
      UnsignedFits(s.args[i].index.value, MAX_INT32);
    }
  }

  /** A runtime syscall without an errno of zero and without an empty argument list. */
  function Normal(s: OciSyscall): OciSyscall {
    s.(errnoRet := if s.errnoRet == Some(0) then None else s.errnoRet,
       args := if s.args == Some([]) then None else s.args)
  }

  lemma {:induction false} OciSyscallRoundTrip(s: OciSyscall)
    requires Fits(s)
    ensures ToOci(FromOci(s)) == Normal(s)
  {
    var api, args := FromOci(s), Args(s);
    forall i | 0 <= i < |args|
      ensures ArgToOci(api.args[i]) == args[i]
    {
      UnsignedFits(args[i].value, MAX_INT64);
      UnsignedFits(args[i].valueTwo, MAX_INT64);
      UnsignedFits(args[i].index, MAX_INT32);
    }
    if args != [] {
      assert OciArgList(api.args).value == args;
    }
  }

  /** Converting from the runtime form and back forgets an errno of zero and an empty list, and nothing else. */
  lemma {:induction false} OciRoundTrip(syscalls: seq<OciSyscall>)
    requires ApiList(syscalls).Some?
    ensures OciList(ApiList(syscalls).value) == seq(|syscalls|, i requires 0 <= i < |syscalls| => Normal(syscalls[i]))
  {
    forall i | 0 <= i < |syscalls|
      ensures ToOci(ApiList(syscalls).value[i]) == Normal(syscalls[i])
    {
      OciSyscallRoundTrip(syscalls[i]);
    }
  }
}
