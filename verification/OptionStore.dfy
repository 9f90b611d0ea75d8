/** The option store of dhcp_options.c: configured options first, defaults for the rest. */
module OptionStore {
  import opened Types
  import opened Bytes
  import opened Netmask
  import opened DhcpCodec

  const SUBNET_MASK: byte := 1
  const TIME_OFFSET: byte := 2
  const BROADCAST_ADDRESS: byte := 28
  const ADDRESS_LEASE_TIME: byte := 51
  const SERVER_IDENTIFIER: byte := 54

  /** find_in_option_store */
  function Lookup(s: seq<DhcpOption>, code: byte): (r: Option<DhcpOption>)
    ensures r.Some? ==> r.value in s && r.value.code == code
    ensures r.None? ==> forall o :: o in s ==> o.code != code
  {
    if s == [] then None else if s[0].code == code then Some(s[0]) else Lookup(s[1..], code)
  }

  /** set_option_in_store: replaces in place, or appends. */
  function Store(s: seq<DhcpOption>, o: DhcpOption): seq<DhcpOption> {
    if s == [] then [o] else if s[0].code == o.code then [o] + s[1..] else [s[0]] + Store(s[1..], o)
  }

  ghost predicate DistinctCodes(s: seq<DhcpOption>) {
    s == [] || ((forall o :: o in s[1..] ==> o.code != s[0].code) && DistinctCodes(s[1..]))
  }

  /** Storing an option changes what is found for its code only, and never adds a second
      option of one code. */
  lemma {:induction false} LookupStored(s: seq<DhcpOption>, o: DhcpOption, code: byte)
    ensures Lookup(Store(s, o), code) == if code == o.code then Some(o) else Lookup(s, code)
    ensures forall p :: p in Store(s, o) ==> p in s || p == o
    ensures DistinctCodes(s) ==> DistinctCodes(Store(s, o))
    ensures |Store(s, o)| == |s| + if Lookup(s, o.code).Some? then 0 else 1
  {
    if s != [] {
      LookupStored(s[1..], o, code);
      assert Store(s, o)[1..] == if s[0].code == o.code then s[1..] else Store(s[1..], o);
    }
  }

  function Complete(s: seq<DhcpOption>, o: DhcpOption): seq<DhcpOption> {
    if Lookup(s, o.code).Some? then s else Store(s, o)
  }

  function CompleteAll(s: seq<DhcpOption>, defaults: seq<DhcpOption>): seq<DhcpOption>
    decreases |defaults|
  {
    if defaults == [] then s else CompleteAll(Complete(s, defaults[0]), defaults[1..])
  }

  /** A default is found exactly for the codes that were not configured. */
  lemma {:induction false} DefaultsYield(s: seq<DhcpOption>, defaults: seq<DhcpOption>, code: byte)
    ensures Lookup(CompleteAll(s, defaults), code)
         == if Lookup(s, code).Some? then Lookup(s, code) else Lookup(defaults, code)
    ensures DistinctCodes(s) ==> DistinctCodes(CompleteAll(s, defaults))
    decreases |defaults|
  {
    if defaults != [] {
      LookupStored(s, defaults[0], code);
      DefaultsYield(Complete(s, defaults[0]), defaults[1..], code);
    }
  }

  function Defaults(prefix: uint32, prefixLen: nat): seq<DhcpOption> {
    [DhcpOption(SUBNET_MASK, MaskBytes(prefixLen)),
     DhcpOption(TIME_OFFSET, [0, 0, 0, 0]),
     DhcpOption(BROADCAST_ADDRESS, BroadcastBytes(prefix, 4, prefixLen)),
     DhcpOption(ADDRESS_LEASE_TIME, [0, 0, 1, 0x2c]),
     DhcpOption(SERVER_IDENTIFIER, Encode(prefix, 4)[..3] + [1])]
  }

  /** find_in_option_store_address_lease_time */
  function LeaseTime(s: seq<DhcpOption>): uint32 {
    match Lookup(s, ADDRESS_LEASE_TIME)
    case None => 0
    case Some(o) => if |o.payload| < 4 then 0 else Number32(o.payload[..4])
  }

  lemma {:induction false} LookupAt(s: seq<DhcpOption>, k: nat)
    requires k < |s| && forall j :: 0 <= j < k ==> s[j].code != s[k].code
    ensures Lookup(s, s[k].code) == Some(s[k])
  {
    if k > 0 { LookupAt(s[1..], k - 1); }
  }

  lemma DefaultsFound(prefix: uint32, prefixLen: nat)
    ensures var ds := Defaults(prefix, prefixLen);
      && Lookup(ds, SUBNET_MASK) == Some(ds[0]) && Lookup(ds, BROADCAST_ADDRESS) == Some(ds[2])
      && Lookup(ds, ADDRESS_LEASE_TIME) == Some(ds[3])
      && Lookup(ds, TIME_OFFSET) == Some(ds[1]) && Lookup(ds, SERVER_IDENTIFIER) == Some(ds[4])
  {
    var ds := Defaults(prefix, prefixLen);
    LookupAt(ds, 0);
    LookupAt(ds, 1);
    LookupAt(ds, 2);
    LookupAt(ds, 3);
    LookupAt(ds, 4);
  }

  /** What is found after initialisation: what was configured, else the mask that has the
      prefixLen high bits set, the broadcast address of the prefix and 300 seconds. */
  lemma InitialisedStore(s: seq<DhcpOption>, prefix: uint32, prefixLen: nat, code: byte)
    requires prefixLen <= 32
    ensures var o := Lookup(CompleteAll(s, Defaults(prefix, prefixLen)), code);
      if Lookup(s, code).Some? then o == Lookup(s, code)
      else
        && (code == 1 ==> o.Some? && Value(o.value.payload) + Pow2(32 - prefixLen) == 0x1_0000_0000)
        && (code == 28 ==>
              o.Some? && Value(o.value.payload) + 1 == prefix - prefix % Pow2(32 - prefixLen) + Pow2(32 - prefixLen))
  {
    DefaultsYield(s, Defaults(prefix, prefixLen), code);
    DefaultsFound(prefix, prefixLen);
    SubnetMask(prefixLen);
    Broadcast(prefix, prefixLen);
  }

  /** The first address of the network of 256 addresses that the prefix lies in. */
  lemma Identifier(prefix: uint32)
    ensures Value(Encode(prefix, 4)[..3] + [1]) == prefix - prefix % 0x100 + 1
  {
    var (s, bs) := (Encode(prefix, 4), Encode(prefix, 4)[..3] + [1]);
    assert bs[..3] == s[..3] && s[..3] == Encode(prefix / 0x100, 3);
    Encode32(prefix);
    assert Value(s) == Value(s[..3]) * 0x100 + s[3];
    assert Value(bs) == Value(bs[..3]) * 0x100 + 1;
  }

  /** The other defaults, of the codes 2, 51 and 54: no time offset, 300 seconds, and as server identifier
      the prefix with 1 for its last byte. */
  lemma {:induction false} InitialisedOthers(s: seq<DhcpOption>, prefix: uint32, prefixLen: nat, code: byte)
    requires code == 2 || code == 51 || code == 54
    ensures var o := Lookup(CompleteAll(s, Defaults(prefix, prefixLen)), code);
      && o.Some?
      && (if Lookup(s, code).Some? then o == Lookup(s, code)
          else if code == 2 then o.value.payload == [0, 0, 0, 0]
          else if code == 51 then o.value.payload == [0, 0, 1, 44]
          else Value(o.value.payload) == prefix - prefix % 0x100 + 1)
  {
    DefaultsYield(s, Defaults(prefix, prefixLen), code);
    DefaultsFound(prefix, prefixLen);
    Identifier(prefix);
  }

  /** The lease time is the configured one, or 300 seconds when none was configured. */
  lemma InitialisedLeaseTime(s: seq<DhcpOption>, prefix: uint32, prefixLen: nat)
    ensures LeaseTime(CompleteAll(s, Defaults(prefix, prefixLen)))
         == if Lookup(s, ADDRESS_LEASE_TIME).Some? then LeaseTime(s) else 300
  {
    DefaultsYield(s, Defaults(prefix, prefixLen), ADDRESS_LEASE_TIME);
    DefaultsFound(prefix, prefixLen);
    ThreeHundred();
  }

  lemma ThreeHundred()
    ensures Number32([0, 0, 1, 0x2c][..4]) == 300
  {
    var bs: seq<byte> := [0, 0, 1, 0x2c];
    assert bs[..4] == bs && bs[..3] == [0, 0, 1];
    assert Value(bs[..3]) == 1 by { assert bs[..3][..2] == [0, 0] && Value([0, 0]) == 0 by { assert [0, 0][..1] == [0]; } }
  }

  // ---------------------------------------------------------------- the store in place

  class OptionList {
    var options: seq<DhcpOption>

    constructor ()
      ensures options == []
    {
      options := [];
    }

    method Find(code: byte) returns (k: nat)
      ensures k <= |options|
      ensures Lookup(options, code) == if k < |options| then Some(options[k]) else None
      ensures forall j :: 0 <= j < k ==> options[j].code != code
      ensures k < |options| ==> options[k].code == code
    {
      k := 0;
      while k < |options| && options[k].code != code
        invariant k <= |options|
        invariant Lookup(options, code) == Lookup(options[k..], code)
        invariant forall j :: 0 <= j < k ==> options[j].code != code
      {
        assert options[k..][1..] == options[k + 1..];
        k := k + 1;
      }
    }

    /** set_option_in_store */
    method SetOption(o: DhcpOption)
      modifies this
      ensures options == Store(old(options), o)
    {
      var k := Find(o.code);
      StoreAt(options, o, k);
      if k < |options| {
        options := options[k := options[k].(payload := o.payload)];
      } else {
        options := options + [o];
      }
    }

    method SetDefault(o: DhcpOption)
      modifies this
      ensures options == Complete(old(options), o)
    {
      var k := Find(o.code);
      if k == |options| {
        SetOption(o);
      }
    }

    /** dhcp_options_init; lengths up to 127 survive the cast to int8_t. */
    method Initialise(prefix: uint32, prefixLen: nat)
      requires prefixLen <= 0x7f
      modifies this
      ensures options == CompleteAll(old(options), Defaults(prefix, prefixLen))
    {
      ghost var ds := Defaults(prefix, prefixLen);
      var mask := MaskPayload(prefixLen);
      var broadcast := BroadcastPayload(prefix, prefixLen);
      CompleteNext(options, ds, 0);
      SetDefault(DhcpOption(SUBNET_MASK, mask));
      CompleteNext(options, ds, 1);
      SetDefault(DhcpOption(TIME_OFFSET, [0, 0, 0, 0]));
      CompleteNext(options, ds, 2);
      SetDefault(DhcpOption(BROADCAST_ADDRESS, broadcast));
      CompleteNext(options, ds, 3);
      SetDefault(DhcpOption(ADDRESS_LEASE_TIME, [0, 0, 1, 0x2c]));
      CompleteNext(options, ds, 4);
      SetDefault(DhcpOption(SERVER_IDENTIFIER, Encode(prefix, 4)[..3] + [1]));
    }
  }

  lemma CompleteNext(s: seq<DhcpOption>, ds: seq<DhcpOption>, i: nat)
    requires i < |ds|
    ensures CompleteAll(s, ds[i..]) == CompleteAll(Complete(s, ds[i]), ds[i + 1..])
    ensures i == 0 ==> ds[i..] == ds
    ensures i + 1 == |ds| ==> CompleteAll(Complete(s, ds[i]), ds[i + 1..]) == Complete(s, ds[i])
  {
    assert ds[i..][1..] == ds[i + 1..];
  }

  method MaskPayload(prefixLen: nat) returns (payload: seq<byte>)
    ensures payload == MaskBytes(prefixLen)
  {
    var a := new byte[4];
    a[0] := MaskByte(prefixLen, 0);
    a[1] := MaskByte(prefixLen, 1);
    a[2] := MaskByte(prefixLen, 2);
    a[3] := MaskByte(prefixLen, 3);
    payload := a[..];
  }

  method BroadcastPayload(prefix: uint32, prefixLen: nat) returns (payload: seq<byte>)
    ensures payload == BroadcastBytes(prefix, 4, prefixLen)
  {
    var a, bytes := new byte[4], Encode(prefix, 4);
    a[0] := BroadcastByte(bytes[0], prefixLen, 0);
    a[1] := BroadcastByte(bytes[1], prefixLen, 1);
    a[2] := BroadcastByte(bytes[2], prefixLen, 2);
    a[3] := BroadcastByte(bytes[3], prefixLen, 3);
    payload := a[..];
  }

  lemma {:induction false} StoreAt(s: seq<DhcpOption>, o: DhcpOption, k: nat)
    requires k <= |s| && (forall j :: 0 <= j < k ==> s[j].code != o.code) && (k < |s| ==> s[k].code == o.code)
    ensures Store(s, o) == if k < |s| then s[k := o] else s + [o]
  {
    if k > 0 {
      StoreAt(s[1..], o, k - 1);
      assert s == [s[0]] + s[1..];
    }
  }
}
