/** What a slot number determines: addresses, device names and the boot argument. */
module NetIdentity {
  import opened Basics
  import Decimal

  /** The configured names: subnet base, tap prefix, egress interface and its MTU. */
  datatype Net = Net(subnet: string, tapPrefix: string, egress: string, mtu: nat)

  function HostIp(n: Net, slot: nat): string {
    n.subnet + "." + Decimal.Render(slot) + ".1"
  }

  function GuestIp(n: Net, slot: nat): string {
    n.subnet + "." + Decimal.Render(slot) + ".2"
  }

  function NetworkCidr(n: Net, slot: nat): string {
    n.subnet + "." + Decimal.Render(slot) + ".0/30"
  }

  function TapName(n: Net, slot: nat): string {
    n.tapPrefix + Decimal.Render(slot)
  }

  /** IPv4 and TCP headers take 40 bytes; the segment size is never below 536. */
  function Mss(mtu: nat): (mss: nat)
    ensures mss >= 536
    ensures mtu >= 576 ==> mss + 40 == mtu
  {
    if mtu < 576 then 536 else mtu - 40
  }

  lemma AppendInjective(a: string, b: string, b': string)
    requires a + b == a + b'
    ensures b == b'
  {
    assert (a + b)[|a|..] == b && (a + b')[|a|..] == b';
  }

  lemma PrependInjective(a: string, a': string, b: string)
    requires a + b == a' + b
    ensures a == a'
  {
    assert |a| == |a'|;
    assert (a + b)[..|a|] == a && (a' + b)[..|a|] == a';
  }

  /** Distinct slots have distinct taps, networks and addresses. */
  lemma SlotsDistinct(n: Net, slot: nat, other: nat)
    requires slot != other
    ensures TapName(n, slot) != TapName(n, other)
    ensures NetworkCidr(n, slot) != NetworkCidr(n, other)
    ensures HostIp(n, slot) != HostIp(n, other) && GuestIp(n, slot) != GuestIp(n, other)
  {
    var d, d' := Decimal.Render(slot), Decimal.Render(other);
    if d == d' {
      Decimal.RenderInjective(slot, other);
    }
    if TapName(n, slot) == TapName(n, other) {
      AppendInjective(n.tapPrefix, d, d');
    }
    SuffixedDistinct(n.subnet + ".", d, d', ".0/30");
    SuffixedDistinct(n.subnet + ".", d, d', ".1");
    SuffixedDistinct(n.subnet + ".", d, d', ".2");
  }

  lemma SuffixedDistinct(front: string, d: string, d': string, suffix: string)
    requires d != d'
    ensures front + d + suffix != front + d' + suffix
  {
    if front + d + suffix == front + d' + suffix {
      PrependInjective(front + d, front + d', suffix);
      AppendInjective(front, d, d');
    }
  }

  // ---------------------------------------------------------------------------
  // The addresses as they are read

  /** Where `sep` first stands in `s`; its length if nowhere. */
  function Find(s: string, sep: char): (i: nat)
    ensures i <= |s| && (i < |s| ==> s[i] == sep)
    ensures forall j :: 0 <= j < i ==> s[j] != sep
  {
    if s == "" || s[0] == sep then 0 else 1 + Find(s[1..], sep)
  }

  function Split(s: string, sep: char): seq<string>
    decreases |s|
  {
    var i := Find(s, sep);
    if i == |s| then [s] else [s[..i]] + Split(s[i + 1..], sep)
  }

  lemma SplitFirst(a: string, sep: char, rest: string)
    requires sep !in a
    ensures Split(a, sep) == [a]
    ensures Split(a + [sep] + rest, sep) == [a] + Split(rest, sep)
  {
    var s := a + [sep] + rest;
    assert s[|a|] == sep && forall j :: 0 <= j < |a| ==> s[j] == a[j];
    assert Find(s, sep) == |a|;
    assert s[..|a|] == a && s[|a| + 1..] == rest;
    assert Find(a, sep) == |a|;
  }

  function Quad(a: nat, b: nat, c: nat, d: nat): nat {
    ((a * 256 + b) * 256 + c) * 256 + d
  }

  predicate IsOctet(s: string) {
    s != "" && Decimal.AllDigits(s) && Decimal.Parse(s) < 256
  }

  /** The 32-bit address written as four numbers with dots between. */
  function ReadAddress(s: string): Option<nat> {
    var f := Split(s, '.');
    if |f| == 4 && IsOctet(f[0]) && IsOctet(f[1]) && IsOctet(f[2]) && IsOctet(f[3]) then
      Some(Quad(Decimal.Parse(f[0]), Decimal.Parse(f[1]), Decimal.Parse(f[2]), Decimal.Parse(f[3])))
    else None
  }

  /** A network: an address and how many of its 32 bits are shared. */
  datatype Network = Network(address: nat, bits: nat)

  function ReadNetwork(s: string): Option<Network> {
    var f := Split(s, '/');
    if |f| == 2 && f[1] != "" && Decimal.AllDigits(f[1]) && Decimal.Parse(f[1]) <= 32 && ReadAddress(f[0]).Some? then
      Some(Network(ReadAddress(f[0]).value, Decimal.Parse(f[1])))
    else None
  }

  function Pow2(n: nat): nat {
    if n == 0 then 1 else 2 * Pow2(n - 1)
  }

  predicate Contains(net: Network, address: nat)
    requires net.bits <= 32
  {
    var size := Pow2(32 - net.bits);
    size > 0 && address / size == net.address / size
  }

  lemma DigitsOnly(n: nat)
    ensures '.' !in Decimal.Render(n) && '/' !in Decimal.Render(n) && ':' !in Decimal.Render(n)
  {
    var d := Decimal.Render(n);
    assert forall i :: 0 <= i < |d| ==> Decimal.IsDigit(d[i]);
  }

  lemma ReadOctet(n: nat)
    requires n < 256
    ensures IsOctet(Decimal.Render(n)) && Decimal.Parse(Decimal.Render(n)) == n
  {
    Decimal.ParseRender(n);
  }

  /** The subnet's base is its first two numbers. */
  predicate Base(n: Net, a: nat, b: nat) {
    a < 256 && b < 256 && n.subnet == Decimal.Render(a) + "." + Decimal.Render(b)
  }

  /** The text of an address in the slot's network is read as the number meant. */
  lemma AddressReads(n: Net, a: nat, b: nat, slot: nat, last: nat)
    requires Base(n, a, b) && slot < 256 && last < 256
    ensures ReadAddress(n.subnet + "." + Decimal.Render(slot) + ("." + Decimal.Render(last))) == Some(Quad(a, b, slot, last))
  {
    hide Split;
    var x, y, z, t := Decimal.Render(a), Decimal.Render(b), Decimal.Render(slot), Decimal.Render(last);
    DigitsOnly(a);
    DigitsOnly(b);
    DigitsOnly(slot);
    DigitsOnly(last);
    var s := n.subnet + "." + z + ("." + t);
    assert s == x + ['.'] + (y + ['.'] + (z + ['.'] + t));
    SplitFirst(x, '.', y + ['.'] + (z + ['.'] + t));
    SplitFirst(y, '.', z + ['.'] + t);
    SplitFirst(z, '.', t);
    SplitFirst(t, '.', "");
    assert Split(s, '.') == [x, y, z, t];
    ReadOctet(a);
    ReadOctet(b);
    ReadOctet(slot);
    ReadOctet(last);
  }

  lemma SmallNumbers()
    ensures Decimal.Render(0) == "0" && Decimal.Render(1) == "1" && Decimal.Render(2) == "2" && Decimal.Render(30) == "30"
  {
    assert Decimal.Render(3) == "3";
  }

  /** The slot's network string is read as the /30 that begins its block of 256. */
  lemma NetworkReads(n: Net, a: nat, b: nat, slot: nat)
    requires Base(n, a, b) && slot < 256
    ensures ReadNetwork(NetworkCidr(n, slot)) == Some(Network(Quad(a, b, slot, 0), 30))
  {
    hide Split, ReadAddress, IsOctet;
    SmallNumbers();
    AddressReads(n, a, b, slot, 0);
    var address := n.subnet + "." + Decimal.Render(slot) + ("." + Decimal.Render(0));
    assert NetworkCidr(n, slot) == address + ['/'] + Decimal.Render(30);
    DigitsOnly(a);
    DigitsOnly(b);
    DigitsOnly(slot);
    DigitsOnly(0);
    DigitsOnly(30);
    SplitFirst(address, '/', Decimal.Render(30));
    SplitFirst(Decimal.Render(30), '/', "");
    Decimal.ParseRender(30);
  }

  /** Host and guest address, as they are read, lie in the slot's own network as it is
      read, strictly between its first and its last address. */
  lemma OwnNetwork(n: Net, a: nat, b: nat, slot: nat)
    requires Base(n, a, b) && slot < 256
    ensures var net, host, guest := ReadNetwork(NetworkCidr(n, slot)), ReadAddress(HostIp(n, slot)), ReadAddress(GuestIp(n, slot));
            && net.Some? && host.Some? && guest.Some? && net.value.bits == 30
            && Contains(net.value, host.value) && Contains(net.value, guest.value)
            && net.value.address < host.value < guest.value < net.value.address + 3
            && Contains(net.value, net.value.address + 3)
  {
    hide ReadAddress, ReadNetwork;
    SmallNumbers();
    NetworkReads(n, a, b, slot);
    AddressReads(n, a, b, slot, 1);
    AddressReads(n, a, b, slot, 2);
    assert HostIp(n, slot) == n.subnet + "." + Decimal.Render(slot) + ("." + Decimal.Render(1));
    assert GuestIp(n, slot) == n.subnet + "." + Decimal.Render(slot) + ("." + Decimal.Render(2));
    BlocksOfFour(Quad(a, b, slot, 0));
    assert Quad(a, b, slot, 0) % 4 == 0;
  }

  lemma BlocksOfFour(base: nat)
    ensures Pow2(2) == 4
    ensures forall address: nat :: Contains(Network(base, 30), address) <==> address / 4 == base / 4
  {
    assert Pow2(1) == 2;
  }

  /** The networks of two slots share an address exactly when the slots are the same. */
  lemma NetworksDisjointIff(n: Net, a: nat, b: nat, slot: nat, other: nat)
    requires Base(n, a, b) && slot < 256 && other < 256
    ensures var net, net' := ReadNetwork(NetworkCidr(n, slot)), ReadNetwork(NetworkCidr(n, other));
            && net.Some? && net'.Some? && net.value.bits == 30 && net'.value.bits == 30
            && ((exists address: nat :: Contains(net.value, address) && Contains(net'.value, address)) <==> slot == other)
  {
    hide ReadAddress, ReadNetwork;
    NetworkReads(n, a, b, slot);
    NetworkReads(n, a, b, other);
    var base, base' := Quad(a, b, slot, 0), Quad(a, b, other, 0);
    BlocksOfFour(base);
    BlocksOfFour(base');
    assert Contains(Network(base, 30), base);
    assert base / 4 == base' / 4 ==> slot == other;
  }

  // ---------------------------------------------------------------------------
  // MAC addresses

  function HexDigit(n: nat): char
    requires n < 16
  {
    if n < 10 then Decimal.Digit(n) else ('A' as int + n - 10) as char
  }

  function Hex2(n: nat): string
    requires n < 256
  {
    [HexDigit(n / 16), HexDigit(n % 16)]
  }

  function GuestMac(slot: nat): string {
    "02:FC:00:00:" + Hex2(slot / 256 % 256) + ":" + Hex2(slot % 256)
  }

  lemma HexDigitInjective(m: nat, n: nat, c: char, d: char)
    requires m < 16 && n < 16 && HexDigit(m) == c && HexDigit(n) == d && c == d
    ensures m == n
  {
  }

  lemma Hex2Injective(m: nat, n: nat)
    requires m < 256 && n < 256 && Hex2(m) == Hex2(n)
    ensures m == n
  {
    HexDigitInjective(m / 16, n / 16, Hex2(m)[0], Hex2(n)[0]);
    HexDigitInjective(m % 16, n % 16, Hex2(m)[1], Hex2(n)[1]);
  }

  function HexValue(c: char): Option<nat> {
    if '0' <= c <= '9' then Some(c as nat - '0' as nat)
    else if 'A' <= c <= 'F' then Some(c as nat - 'A' as nat + 10)
    else None
  }

  /** Two hexadecimal digits, read as an octet. */
  function ReadHex2(s: string): Option<nat> {
    if |s| == 2 && HexValue(s[0]).Some? && HexValue(s[1]).Some?
    then Some(HexValue(s[0]).value * 16 + HexValue(s[1]).value) else None
  }

  lemma Hex2Reads(n: nat)
    requires n < 256
    ensures ReadHex2(Hex2(n)) == Some(n) && ':' !in Hex2(n)
  {
    HexDigitReads(n / 16);
    HexDigitReads(n % 16);
  }

  lemma HexDigitReads(n: nat)
    requires n < 16
    ensures HexValue(HexDigit(n)) == Some(n) && HexDigit(n) != ':'
  {
  }

  /** A slot's MAC is read as 02:FC:00:00, locally administered and of one station, and the
      slot in two octets. */
  lemma MacReads(slot: nat)
    requires slot < 65536
    ensures var f := Split(GuestMac(slot), ':');
            && |f| == 6
            && ReadHex2(f[0]) == Some(0x02) && ReadHex2(f[1]) == Some(0xFC) && ReadHex2(f[2]) == ReadHex2(f[3]) == Some(0)
            && ReadHex2(f[4]).Some? && ReadHex2(f[5]).Some?
            && ReadHex2(f[4]).value * 256 + ReadHex2(f[5]).value == slot
  {
    hide Split, Hex2;
    var hi, lo := Hex2(slot / 256 % 256), Hex2(slot % 256);
    Hex2Reads(slot / 256 % 256);
    Hex2Reads(slot % 256);
    var tail := hi + [':'] + lo;
    MacSplits(hi, lo);
    SplitFirst(hi, ':', lo);
    SplitFirst(lo, ':', "");
    assert GuestMac(slot) == "02:FC:00:00:" + tail;
    assert slot / 256 % 256 == slot / 256;
  }

  lemma MacSplits(hi: string, lo: string)
    ensures Split("02:FC:00:00:" + (hi + [':'] + lo), ':') == ["02", "FC", "00", "00"] + Split(hi + [':'] + lo, ':')
  {
    hide Split;
    var t4 := hi + [':'] + lo;
    var t3 := "00" + [':'] + t4;
    var t2 := "00" + [':'] + t3;
    var t1 := "FC" + [':'] + t2;
    assert "02:FC:00:00:" + t4 == "02" + [':'] + t1;
    SplitFirst("02", ':', t1);
    SplitFirst("FC", ':', t2);
    SplitFirst("00", ':', t3);
    SplitFirst("00", ':', t4);
  }

  lemma MacFields(slot: nat)
    ensures |GuestMac(slot)| == 17
    ensures GuestMac(slot)[12..14] == Hex2(slot / 256 % 256) && GuestMac(slot)[15..] == Hex2(slot % 256)
  {
  }

  /** MACs tell slots apart as long as the slot fits in the two bytes used. */
  lemma MacsDistinct(slot: nat, other: nat)
    requires slot < 65536 && other < 65536
    ensures GuestMac(slot) == GuestMac(other) <==> slot == other
  {
    hide GuestMac, Hex2;
    if GuestMac(slot) == GuestMac(other) {
      MacFields(slot);
      MacFields(other);
      Hex2Injective(slot / 256 % 256, other / 256 % 256);
      Hex2Injective(slot % 256, other % 256);
    }
  }

  // ---------------------------------------------------------------------------
  // The boot argument and the guest's reading of it

  function IpBootArg(guest: string, host: string): string {
    "ip=" + guest + "::" + host + ":255.255.255.252::eth0:off"
  }

  /** Field `k` (from 1) of a colon-separated line, as `cut -d: -fk` prints it. */
  function CutField(s: string, k: nat): string
    requires k >= 1
    decreases |s|
  {
    var colon := Find(s, ':');
    if k == 1 then s[..colon]
    else if colon == |s| then ""
    else CutField(s[colon + 1..], k - 1)
  }

  lemma CutFirst(a: string, rest: string)
    requires ':' !in a
    ensures CutField(a + ":" + rest, 1) == a
    ensures forall k :: k > 1 ==> CutField(a + ":" + rest, k) == CutField(rest, k - 1)
  {
    var s := a + ":" + rest;
    assert s[|a|] == ':' && forall j :: 0 <= j < |a| ==> s[j] == a[j];
    assert Find(s, ':') == |a|;
    assert s[..|a|] == a && s[|a| + 1..] == rest;
  }

  lemma BootArgFields(guest: string, host: string)
    ensures IpBootArg(guest, host)[3..] == guest + ":" + ("" + ":" + (host + ":" + "255.255.255.252::eth0:off"))
  {
    var tail := "255.255.255.252::eth0:off";
    Associative("ip=", guest, "::");
    Associative("ip=", guest + "::", host);
    Associative("ip=", guest + "::" + host, ":" + tail);
    Associative(guest + "::", host, ":" + tail);
    Associative(guest, ":", ":");
    Associative(guest + ":", ":", host + (":" + tail));
    Associative(host, ":", tail);
    assert ":" + tail == ":255.255.255.252::eth0:off" && ":" + ":" == "::" && "" + ":" == ":";
  }

  lemma {:induction false} FieldsHoldNoColon(s: string, k: nat)
    requires k >= 1
    ensures ':' !in CutField(s, k)
    decreases |s|
  {
    var colon := Find(s, ':');
    if k > 1 && colon < |s| {
      FieldsHoldNoColon(s[colon + 1..], k - 1);
    }
  }

  /** The guest recovers both addresses from the argument, whatever they are, if and
      only if they contain no colon. */
  lemma BootArgRoundTrip(guest: string, host: string)
    ensures var arg := IpBootArg(guest, host);
            && arg[..3] == "ip="
            && (CutField(arg[3..], 1) == guest && CutField(arg[3..], 3) == host
                <==> ':' !in guest && ':' !in host)
  {
    var tail := "255.255.255.252::eth0:off";
    hide CutField, Find;
    var arg := IpBootArg(guest, host);
    FieldsHoldNoColon(arg[3..], 1);
    FieldsHoldNoColon(arg[3..], 3);
    if ':' !in guest && ':' !in host {
      BootArgFields(guest, host);
      CutFirst(guest, "" + ":" + (host + ":" + tail));
      CutFirst("", host + ":" + tail);
      CutFirst(host, tail);
    }
  }

  /** The other fields: the netmask of a /30, the device, and no further configuration. */
  lemma BootArgRest(guest: string, host: string)
    requires ':' !in guest && ':' !in host
    ensures var arg := IpBootArg(guest, host)[3..];
            && CutField(arg, 2) == "" && CutField(arg, 4) == "255.255.255.252" && CutField(arg, 5) == ""
            && CutField(arg, 6) == "eth0" && CutField(arg, 7) == "off"
  {
    hide CutField, IpBootArg;
    var off := "off";
    var dev := "eth0" + ":" + off;
    var gap := "" + ":" + dev;
    var mask := "255.255.255.252" + ":" + gap;
    assert mask == "255.255.255.252::eth0:off";
    BootArgFields(guest, host);
    CutFirst(guest, "" + ":" + (host + ":" + mask));
    CutFirst("", host + ":" + mask);
    CutFirst(host, mask);
    CutFirst("255.255.255.252", gap);
    CutFirst("", dev);
    CutFirst("eth0", off);
    CutLast("off");
  }

  lemma CutLast(a: string)
    requires ':' !in a
    ensures CutField(a, 1) == a
  {
    assert Find(a, ':') == |a|;
  }

  /** So each slot's guest learns its own address and its host's. */
  lemma GuestLearnsAddresses(n: Net, slot: nat)
    requires ':' !in n.subnet
    ensures var arg := IpBootArg(GuestIp(n, slot), HostIp(n, slot));
            CutField(arg[3..], 1) == GuestIp(n, slot) && CutField(arg[3..], 3) == HostIp(n, slot)
  {
    hide IpBootArg, CutField;
    DigitsOnly(slot);
    BootArgRoundTrip(GuestIp(n, slot), HostIp(n, slot));
  }
}
