/**
 The bounded argument lists and paths of the speculation protocol: one constructor
 that checks raw bytes, one decoder that checks the wire form, and the proof that
 the two accept the same values.
 */
module Argv {
  import opened Common
  import opened Base64

  const MAX_ENTRIES: nat := 256
  const MAX_ARG_BYTES: nat := 64 * 1024
  const MAX_ARGV_BYTES: nat := 256 * 1024
  const MAX_PATH_BYTES: nat := 4096

  type Bytes = seq<Byte>

  datatype WireError = EmptyArgv | TooMany | TooLong | InteriorNul | TooLarge | Encoding | EmptyPath | PathTooLong

  // ---- What is acceptable ----

  predicate FitArgument(a: Bytes) {
    |a| <= MAX_ARG_BYTES && 0 !in a
  }

  function Total(argv: seq<Bytes>): (n: nat)
    ensures forall i :: 0 <= i < |argv| ==> |argv[i]| <= n
  {
    if argv == [] then 0 else Total(argv[..|argv| - 1]) + |argv[|argv| - 1]|
  }

  predicate FitArgv(argv: seq<Bytes>) {
    && 1 <= |argv| <= MAX_ENTRIES
    && (forall i :: 0 <= i < |argv| ==> FitArgument(argv[i]))
    && Total(argv) <= MAX_ARGV_BYTES
  }

  predicate FitPath(p: Bytes) {
    1 <= |p| <= MAX_PATH_BYTES && 0 !in p
  }

  function EncodeAll(argv: seq<Bytes>): (wire: seq<Bytes>)
    ensures |wire| == |argv| && forall i :: 0 <= i < |argv| ==> wire[i] == Encode(argv[i])
  {
    seq(|argv|, i requires 0 <= i < |argv| => Encode(argv[i]))
  }

  lemma TotalSnoc(argv: seq<Bytes>, i: nat)
    requires i < |argv|
    ensures Total(argv[..i + 1]) == Total(argv[..i]) + |argv[i]|
  {
    assert argv[..i + 1][..i] == argv[..i];
  }

  lemma {:induction false} TotalGrows(argv: seq<Bytes>, i: nat)
    requires i <= |argv|
    ensures Total(argv[..i]) <= Total(argv)
    decreases |argv| - i
  {
    if i < |argv| {
      TotalSnoc(argv, i);
      TotalGrows(argv, i + 1);
    } else {
      assert argv[..i] == argv;
    }
  }

  // ---- The constructors ----

  /** `validate_speculation_argument`. */
  function CheckArgument(a: Bytes): (e: Option<WireError>)
    ensures e.None? <==> FitArgument(a)
    ensures e == Some(TooLong) <==> |a| > MAX_ARG_BYTES
  {
    if |a| > MAX_ARG_BYTES then Some(TooLong) else if 0 in a then Some(InteriorNul) else None
  }

  /** Everything before argument `i` is acceptable, and `e` is what is wrong with argument `i`. */
  predicate FirstFault(values: seq<Bytes>, i: nat, e: WireError) {
    && i < |values|
    && (forall j :: 0 <= j < i ==> FitArgument(values[j]))
    && Total(values[..i]) <= MAX_ARGV_BYTES
    && (if FitArgument(values[i]) then e == TooLarge && Total(values[..i + 1]) > MAX_ARGV_BYTES
        else CheckArgument(values[i]) == Some(e))
  }

  /** `SpeculationArgv::from_os_strings`. */
  method FromArguments(values: seq<Bytes>) returns (r: Result<seq<Bytes>, WireError>)
    ensures r.Ok? <==> FitArgv(values)
    ensures r.Ok? <==>
      && 1 <= |values| <= 256 && Total(values) <= 262_144
      && (forall i :: 0 <= i < |values| ==> |values[i]| <= 65_536 && forall k :: 0 <= k < |values[i]| ==> values[i][k] != 0)
    ensures r.Ok? ==> r.value == values
    ensures r == Err(EmptyArgv) <==> values == []
    ensures r == Err(TooMany) <==> |values| > MAX_ENTRIES
    ensures r.Err? && 1 <= |values| <= MAX_ENTRIES ==> exists i :: 0 <= i < |values| && FirstFault(values, i, r.error)
  {
    hide Total;
    if values == [] {
      return Err(EmptyArgv);
    }
    if |values| > MAX_ENTRIES {
      return Err(TooMany);
    }
    var arguments: seq<Bytes> := [];
    var total: nat := 0;
    assert Total(values[..0]) == 0 by { TotalOfNothing(values[..0]); }
    for i := 0 to |values|
      invariant arguments == values[..i]
      invariant forall j :: 0 <= j < i ==> FitArgument(values[j])
      invariant total == Total(values[..i]) <= MAX_ARGV_BYTES
    {
      var fault := CheckArgument(values[i]);
      if fault.Some? {
        assert FirstFault(values, i, fault.value);
        return Err(fault.value);
      }
      TotalSnoc(values, i);
      if total + |values[i]| > MAX_ARGV_BYTES {
        TotalGrows(values, i + 1);
        assert FirstFault(values, i, TooLarge);
        return Err(TooLarge);
      }
      total := total + |values[i]|;
      arguments := arguments + [values[i]];
    }
    assert values[..|values|] == values;
    r := Ok(arguments);
  }

  lemma TotalOfNothing(argv: seq<Bytes>)
    requires argv == []
    ensures Total(argv) == 0
  {
  }

  /** `SpeculationUnixPath::from_bytes`. */
  method PathFromBytes(bytes: Bytes) returns (r: Result<Bytes, WireError>)
    ensures r.Ok? <==> FitPath(bytes)
    ensures r.Ok? <==> 1 <= |bytes| <= 4096 && forall k :: 0 <= k < |bytes| ==> bytes[k] != 0
    ensures r.Ok? ==> r.value == bytes
    ensures r == Err(EmptyPath) <==> bytes == []
    ensures r == Err(InteriorNul) <==> 0 in bytes && |bytes| <= MAX_PATH_BYTES
  {
    if bytes == [] {
      return Err(EmptyPath);
    }
    if |bytes| > MAX_PATH_BYTES {
      return Err(PathTooLong);
    }
    if 0 in bytes {
      return Err(InteriorNul);
    }
    r := Ok(bytes);
  }

  // ---- The wire forms ----

  /** `Serialize for SpeculationArgv`. */
  method SerializeArgv(argv: seq<Bytes>) returns (wire: seq<Bytes>)
    ensures wire == EncodeAll(argv)
  {
    wire := [];
    for i := 0 to |argv|
      invariant |wire| == i && forall j :: 0 <= j < i ==> wire[j] == Encode(argv[j])
    {
      var e := EncodeBase64(argv[i]);
      wire := wire + [e];
    }
  }

  /** Each received string is the canonical encoding of the argument beside it. */
  predicate Matches(wire: seq<Bytes>, argv: seq<Bytes>) {
    |wire| == |argv| && forall i :: 0 <= i < |wire| ==> wire[i] == Encode(argv[i])
  }

  lemma EncodeIsInjective(a: Bytes, b: Bytes)
    requires |a| <= MAX_SEND_DATA_BYTES && |b| <= MAX_SEND_DATA_BYTES && Encode(a) == Encode(b)
    ensures a == b
  {
    DecodeInvertsEncode(a);
    DecodeInvertsEncode(b);
  }

  /** No acceptable list has this wire form, because no acceptable argument has the form at `i`. */
  lemma BadElementIsFatal(wire: seq<Bytes>, i: nat)
    requires i < |wire|
    requires forall a :: FitArgument(a) ==> Encode(a) != wire[i]
    ensures forall argv :: FitArgv(argv) ==> EncodeAll(argv) != wire
  {
    forall argv | FitArgv(argv)
      ensures EncodeAll(argv) != wire
    {
      if i < |argv| {
        assert FitArgument(argv[i]) && EncodeAll(argv)[i] == Encode(argv[i]);
      }
    }
  }

  lemma ElementRefused(e: Bytes)
    requires match DecodeCanonical(e, MAX_ARG_BYTES) case None => true case Some(a) => !FitArgument(a)
    ensures forall a :: FitArgument(a) ==> Encode(a) != e
  {
    hide DecodeCanonical;
    forall a | FitArgument(a)
      ensures Encode(a) != e
    {
      CanonicalAcceptsExactly(e, MAX_ARG_BYTES, a);
    }
  }

  /** Every acceptable list with this wire form starts with what has been decoded. */
  lemma DecodedSoFar(wire: seq<Bytes>, arguments: seq<Bytes>, argv: seq<Bytes>)
    requires |arguments| <= |wire| && Matches(wire[..|arguments|], arguments)
    requires forall j :: 0 <= j < |arguments| ==> FitArgument(arguments[j])
    requires FitArgv(argv) && EncodeAll(argv) == wire
    ensures arguments == argv[..|arguments|]
  {
    hide Encode;
    forall j | 0 <= j < |arguments|
      ensures arguments[j] == argv[j]
    {
      assert wire[..|arguments|][j] == Encode(arguments[j]) && wire[j] == Encode(argv[j]);
      EncodeIsInjective(arguments[j], argv[j]);
    }
  }

  lemma TooLargeIsFatal(wire: seq<Bytes>, arguments: seq<Bytes>)
    requires |arguments| <= |wire| && Matches(wire[..|arguments|], arguments)
    requires forall j :: 0 <= j < |arguments| ==> FitArgument(arguments[j])
    requires Total(arguments) > MAX_ARGV_BYTES
    ensures forall argv :: FitArgv(argv) ==> EncodeAll(argv) != wire
  {
    forall argv | FitArgv(argv)
      ensures EncodeAll(argv) != wire
    {
      if EncodeAll(argv) == wire {
        DecodedSoFar(wire, arguments, argv);
        TotalGrows(argv, |arguments|);
      }
    }
  }

  /** `Deserialize for SpeculationArgv`: accepts exactly the wire forms of acceptable lists, and gives the list back. */
  method DeserializeArgv(wire: seq<Bytes>) returns (r: Result<seq<Bytes>, WireError>)
    ensures r.Ok? ==> FitArgv(r.value) && EncodeAll(r.value) == wire
    ensures r.Err? ==> forall argv :: FitArgv(argv) ==> EncodeAll(argv) != wire
    ensures r == Err(EmptyArgv) <==> wire == []
  {
    hide Total;
    hide DecodeCanonical;
    hide Encode;
    var arguments: seq<Bytes> := [];
    var total: nat := 0;
    TotalOfNothing(arguments);
    for i := 0 to |wire|
      invariant |arguments| == i <= MAX_ENTRIES
      invariant Matches(wire[..i], arguments)
      invariant forall j :: 0 <= j < i ==> FitArgument(arguments[j])
      invariant total == Total(arguments) <= MAX_ARGV_BYTES
    {
      if |arguments| >= MAX_ENTRIES {
        return Err(TooMany);
      }
      var decoded := DecodeCanonical(wire[i], MAX_ARG_BYTES);
      if decoded.None? {
        ElementRefused(wire[i]);
        BadElementIsFatal(wire, i);
        return Err(Encoding);
      }
      var a := decoded.value;
      var fault := CheckArgument(a);
      if fault.Some? {
        ElementRefused(wire[i]);
        BadElementIsFatal(wire, i);
        return Err(fault.value);
      }
      CanonicalAcceptsExactly(wire[i], MAX_ARG_BYTES, a);
      var longer := arguments + [a];
      assert longer[..i] == arguments;
      TotalSnoc(longer, i);
      assert longer[..i + 1] == longer;
      assert Matches(wire[..i + 1], longer) by { assert wire[..i + 1][..i] == wire[..i]; MatchesSnoc(wire, i, arguments, a); }
      if total + |a| > MAX_ARGV_BYTES {
        TooLargeIsFatal(wire, longer);
        return Err(TooLarge);
      }
      total := total + |a|;
      arguments := longer;
    }
    if arguments == [] {
      return Err(EmptyArgv);
    }
    assert wire[..|wire|] == wire;
    assert EncodeAll(arguments) == wire;
    r := Ok(arguments);
  }

  lemma MatchesSnoc(wire: seq<Bytes>, i: nat, arguments: seq<Bytes>, a: Bytes)
    requires i < |wire| && Matches(wire[..i], arguments) && wire[i] == Encode(a)
    ensures Matches(wire[..i + 1], arguments + [a])
  {
    hide Encode;
    forall j | 0 <= j < i
      ensures wire[..i + 1][j] == Encode((arguments + [a])[j])
    {
      assert wire[..i][j] == Encode(arguments[j]);
    }
  }

  /** What one side can construct and serialize, the other accepts and reads back unchanged. */
  method ArgvRoundTrip(values: seq<Bytes>) returns (r: Result<seq<Bytes>, WireError>)
    requires FitArgv(values)
    ensures r == Ok(values)
  {
    hide Total;
    hide Encode;
    var wire := SerializeArgv(values);
    r := DeserializeArgv(wire);
    if r.Ok? {
      assert Matches(wire[..|r.value|], r.value) by { assert wire[..|r.value|] == wire; }
      DecodedSoFar(wire, r.value, values);
      assert values[..|values|] == values;
    }
  }

  /** `Deserialize for SpeculationUnixPath`. */
  method DeserializePath(encoded: Bytes) returns (r: Result<Bytes, WireError>)
    ensures r.Ok? ==> FitPath(r.value) && Encode(r.value) == encoded
    ensures r.Err? ==> forall p :: FitPath(p) ==> Encode(p) != encoded
  {
    hide DecodeCanonical;
    hide Encode;
    var decoded := DecodeCanonical(encoded, MAX_PATH_BYTES);
    forall p | FitPath(p)
      ensures Encode(p) == encoded ==> decoded == Some(p)
    {
      CanonicalAcceptsExactly(encoded, MAX_PATH_BYTES, p);
    }
    if decoded.None? {
      return Err(Encoding);
    }
    CanonicalAcceptsExactly(encoded, MAX_PATH_BYTES, decoded.value);
    r := PathFromBytes(decoded.value);
  }
}
