/**
 * `mac`: the key under which a MAC address is looked up (its first six hex
 * digits, the vendor prefix), the lookup URL, and the choice of the default
 * interface whose address is looked up when none is given.
 */
module Mac {
  import opened Wrappers
  import opened Text

  type Byte = b: int | 0 <= b < 256

  predicate IsLowerHex(c: char) {
    '0' <= c <= '9' || 'a' <= c <= 'f'
  }

  /** The value of a lower-case hex digit. */
  function HexValue(c: char): int {
    if '0' <= c <= '9' then c as int - '0' as int else c as int - 'a' as int + 10
  }

  /** The lower-case hex digit of a value below 16. */
  function HexDigit(d: int): (c: char)
    requires 0 <= d < 16
    ensures IsLowerHex(c) && HexValue(c) == d
  {
    if d < 10 then ('0' as int + d) as char else ('a' as int + d - 10) as char
  }

  /** A byte as two lower-case hex digits, high nibble first, which read back as the byte. */
  function HexByte(b: Byte): (h: string)
    ensures |h| == 2 && ':' !in h
    ensures IsLowerHex(h[0]) && IsLowerHex(h[1])
    ensures 16 * HexValue(h[0]) + HexValue(h[1]) == b
  {
    [HexDigit(b / 16), HexDigit(b % 16)]
  }

  function Hexes(addr: seq<Byte>): (r: seq<string>)
    ensures |r| == |addr|
  {
    if addr == [] then [] else [HexByte(addr[0])] + Hexes(addr[1..])
  }

  lemma {:induction false} HexesNoColon(addr: seq<Byte>)
    ensures NoneHolds(Hexes(addr), ':')
  {
    if addr != [] {
      HexesNoColon(addr[1..]);
      ConsNoneHolds(HexByte(addr[0]), Hexes(addr[1..]), ':');
    }
  }

  /** `net.HardwareAddr.String`: the bytes in hex, separated by colons. */
  function HwString(addr: seq<Byte>): string {
    Join(Hexes(addr), ":")
  }

  /** `shortenMAC`: the first six characters, or all of a shorter text. */
  function ShortenMAC(mac: string): (r: string)
    ensures |r| == if |mac| < 6 then |mac| else 6
    ensures r == mac[..|r|]
  {
    if |mac| < 6 then mac else mac[..6]
  }

  lemma ShortenMACIdempotent(mac: string)
    ensures ShortenMAC(ShortenMAC(mac)) == ShortenMAC(mac)
  {
    var r := ShortenMAC(mac);
    assert r[..|r|] == r;
  }

  /** `strings.ReplaceAll(s, [c], "")`: `s` without its `c`s. */
  function RemoveAll(s: string, c: char): (r: string)
    ensures |r| <= |s|
    decreases |s|
  {
    if s == [] then []
    else (if s[0] == c then [] else [s[0]]) + RemoveAll(s[1..], c)
  }

  lemma {:induction false} RemoveAllGone(s: string, c: char)
    ensures c !in RemoveAll(s, c)
    decreases |s|
  {
    if s != [] {
      RemoveAllGone(s[1..], c);
    }
  }

  lemma {:induction false} RemoveAllNone(s: string, c: char)
    requires c !in s
    ensures RemoveAll(s, c) == s
    decreases |s|
  {
    if s != [] {
      assert s == [s[0]] + s[1..];
      RemoveAllNone(s[1..], c);
    }
  }

  lemma {:induction false} RemoveAllAppend(a: string, b: string, c: char)
    ensures RemoveAll(a + b, c) == RemoveAll(a, c) + RemoveAll(b, c)
    decreases |a|
  {
    if a == [] {
      assert a + b == b;
    } else {
      assert (a + b)[1..] == a[1..] + b;
      RemoveAllAppend(a[1..], b, c);
    }
  }

  function Concat(parts: seq<string>): string {
    if parts == [] then "" else parts[0] + Concat(parts[1..])
  }

  /** Removing the separator from parts that do not hold it concatenates them. */
  lemma {:induction false} RemoveAllJoin(parts: seq<string>, c: char)
    requires NoneHolds(parts, c)
    ensures RemoveAll(Join(parts, [c]), c) == Concat(parts)
  {
    if |parts| == 1 {
      RemoveAllNone(parts[0], c);
    } else if |parts| > 1 {
      var rest := parts[1..];
      assert NoneHolds(rest, c) by {
        assert forall k :: 0 <= k < |rest| ==> rest[k] == parts[k + 1];
      }
      RemoveAllJoin(rest, c);
      JoinCons(parts, [c]);
      RemoveAllSeparated(parts[0], Join(rest, [c]), c);
    }
  }

  lemma RemoveAllSeparated(head: string, tail: string, c: char)
    requires c !in head
    ensures RemoveAll(head + ([c] + tail), c) == head + RemoveAll(tail, c)
  {
    var t := [c] + tail;
    assert t[0] == c && t[1..] == tail;
    assert RemoveAll(t, c) == RemoveAll(tail, c);
    RemoveAllAppend(head, t, c);
    RemoveAllNone(head, c);
  }

  // ---------------------------------------------------------------------------
  // getMACInfo
  // ---------------------------------------------------------------------------

  const ApiPrefix: string := "https://api.maclookup.app/v2/macs/"

  /** The lookup key of `getMACInfo`: the address without colons, shortened. */
  function LookupKey(mac: string): string {
    ShortenMAC(RemoveAll(mac, ':'))
  }

  /** The URL `getMACInfo` requests. */
  function LookupUrl(mac: string): string {
    ApiPrefix + LookupKey(mac)
  }

  /** The key has no colon and at most six characters; the URL is the prefix and the key. */
  lemma LookupUrlParts(mac: string)
    ensures var key := LookupKey(mac);
            ':' !in key && |key| <= 6
            && HasPrefix(LookupUrl(mac), ApiPrefix)
            && LookupUrl(mac)[|ApiPrefix|..] == key
  {
    var s := RemoveAll(mac, ':');
    RemoveAllGone(mac, ':');
    var key := LookupKey(mac);
    assert key == s[..|key|];
    assert forall k :: 0 <= k < |key| ==> key[k] == s[k];
    HasPrefixAppend(ApiPrefix, key);
    assert (ApiPrefix + key)[|ApiPrefix|..] == key;
  }

  lemma HexesCons(addr: seq<Byte>)
    requires addr != []
    ensures Concat(Hexes(addr)) == HexByte(addr[0]) + Concat(Hexes(addr[1..]))
  {
    assert Hexes(addr)[1..] == Hexes(addr[1..]);
  }

  lemma HexesPrefix(addr: seq<Byte>)
    requires |addr| >= 3
    ensures Concat(Hexes(addr)) == HexByte(addr[0]) + (HexByte(addr[1]) + (HexByte(addr[2]) + Concat(Hexes(addr[3..]))))
  {
    var a1, a2 := addr[1..], addr[2..];
    assert a1[0] == addr[1] && a1[1..] == a2;
    assert a2[0] == addr[2] && a2[1..] == addr[3..];
    HexesCons(addr);
    HexesCons(a1);
    HexesCons(a2);
  }

  /** The key of an address of three or more bytes is the hex of its first three: the vendor prefix. */
  lemma LookupKeyVendor(addr: seq<Byte>)
    requires |addr| >= 3
    ensures LookupKey(HwString(addr)) == HexByte(addr[0]) + HexByte(addr[1]) + HexByte(addr[2])
  {
    HexesNoColon(addr);
    RemoveAllJoin(Hexes(addr), ':');
    HexesPrefix(addr);
    var h0, h1, h2 := HexByte(addr[0]), HexByte(addr[1]), HexByte(addr[2]);
    var s := h0 + (h1 + (h2 + Concat(Hexes(addr[3..]))));
    assert s[..6] == h0 + h1 + h2;
  }

  // ---------------------------------------------------------------------------
  // getDefaultMACAddress
  // ---------------------------------------------------------------------------

  /** A network interface: its `net.Flags` bits and its hardware address. */
  datatype Interface = Interface(name: string, flags: bv32, hardwareAddr: seq<Byte>)

  const FlagLoopback: bv32 := 4

  datatype MacError = InterfacesFailed | NoValidInterface

  /** Not a loopback interface, and it has a hardware address. */
  predicate Eligible(iface: Interface) {
    iface.flags & FlagLoopback == 0 && |iface.hardwareAddr| > 0
  }

  /** The position of the first eligible interface. */
  function FirstEligible(ifaces: seq<Interface>): (r: Option<nat>)
    ensures r.Some? ==> r.value < |ifaces| && Eligible(ifaces[r.value])
    decreases |ifaces|
  {
    if ifaces == [] then None
    else if Eligible(ifaces[0]) then Some(0)
    else
      var rest := FirstEligible(ifaces[1..]);
      if rest.None? then None else Some(rest.value + 1)
  }

  /** None exactly when no interface is eligible; otherwise none before it is. */
  lemma {:induction false} FirstEligibleIsFirst(ifaces: seq<Interface>)
    ensures FirstEligible(ifaces).None? <==> forall i :: 0 <= i < |ifaces| ==> !Eligible(ifaces[i])
    ensures FirstEligible(ifaces).Some? ==>
              forall i :: 0 <= i < FirstEligible(ifaces).value ==> !Eligible(ifaces[i])
    decreases |ifaces|
  {
    if ifaces != [] && !Eligible(ifaces[0]) {
      FirstEligibleIsFirst(ifaces[1..]);
      assert forall i :: 1 <= i < |ifaces| ==> ifaces[i] == ifaces[1..][i - 1];
    }
  }

  /**
   * `getDefaultMACAddress` over the enumerated interfaces (`None` when the
   * enumeration fails): the address of the first eligible one.
   */
  method GetDefaultMACAddress(interfaces: Option<seq<Interface>>) returns (r: Result<string, MacError>)
    ensures interfaces.None? ==> r == Err(InterfacesFailed)
    ensures interfaces.Some? && FirstEligible(interfaces.value).None? ==> r == Err(NoValidInterface)
    ensures interfaces.Some? && FirstEligible(interfaces.value).Some? ==>
              r == Ok(HwString(interfaces.value[FirstEligible(interfaces.value).value].hardwareAddr))
  {
    if interfaces.None? {
      return Err(InterfacesFailed);
    }
    var ifaces := interfaces.value;
    var i := 0;
    assert ifaces[0..] == ifaces;
    while i < |ifaces|
      invariant 0 <= i <= |ifaces|
      invariant FirstEligible(ifaces) == FirstEligibleFrom(ifaces, i)
    {
      if ifaces[i].flags & FlagLoopback == 0 && |ifaces[i].hardwareAddr| > 0 {
        return Ok(HwString(ifaces[i].hardwareAddr));
      }
      FirstEligibleStep(ifaces, i);
      i := i + 1;
    }
    return Err(NoValidInterface);
  }

  /** The first eligible position at `i` or later, as a position in `ifaces`. */
  function FirstEligibleFrom(ifaces: seq<Interface>, i: nat): Option<nat>
    requires i <= |ifaces|
  {
    var r := FirstEligible(ifaces[i..]);
    if r.None? then None else Some(r.value + i)
  }

  lemma FirstEligibleStep(ifaces: seq<Interface>, i: nat)
    requires i < |ifaces| && !Eligible(ifaces[i])
    ensures FirstEligibleFrom(ifaces, i) == FirstEligibleFrom(ifaces, i + 1)
  {
    assert ifaces[i..][1..] == ifaces[i + 1..];
  }
}
