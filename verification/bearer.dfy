/**
 * The FM350-GL bearer: PDP context activation and deactivation with
 * +CGACT (3GPP TS 27.007 section 10.1.10), the address query +CGPADDR
 * (section 10.1.14) and the DNS query +CGCONTRDP (section 10.1.23), which
 * together fill in the IPv4 and IPv6 configurations of a connection.
 */
module Fm350Bearer {
  import opened Wrappers
  import opened Text
  import opened AtChannel

  /** MMBearerIpMethod */
  datatype IpMethod = Unknown | Ppp | Static | Dhcp

  /** The contents of an MMBearerIpConfig at one moment. */
  datatype IpConfigValue = IpConfigValue(
    ipMethod: IpMethod,
    address: Option<string>,
    prefix: nat,
    gateway: Option<string>,
    dns: seq<string>)

  /** What mm_bearer_ip_config_new starts from. */
  const NewIpConfig := IpConfigValue(Unknown, None, 0, None, [])

  /** An MMBearerIpConfig: the parsers fill it in field by field. */
  class IpConfig {
    var ipMethod: IpMethod
    var address: Option<string>
    var prefix: nat
    var gateway: Option<string>
    var dns: seq<string>

    function Value(): IpConfigValue
      reads this
    {
      IpConfigValue(ipMethod, address, prefix, gateway, dns)
    }

    /** mm_bearer_ip_config_new */
    constructor ()
      ensures Value() == NewIpConfig
    {
      ipMethod, address, prefix, gateway, dns := Unknown, None, 0, None, [];
    }
  }

  /** The network data port the modem reports as its best one. */
  datatype Port = Port(device: string)

  /** The errors the bearer reports, each with the message the C code sets. */
  datatype BearerError =
    | AtFailed(message: string)  // the AT command itself failed
    | MissingCgpaddrPrefix       // "Missing +CGPADDR prefix"
    | CgpaddrMismatch            // "Couldn't match +CGPADDR reply"
    | MissingCgcontrdpPrefix     // "Missing +cgcontrdp prefix"
    | CgcontrdpMismatch          // "Couldn't match +cgcontrdp reply"

  /** Both configurations of a connection, with the port they belong to. */
  datatype ConnectResult = ConnectResult(port: Port, ipv4: IpConfig, ipv6: IpConfig)

  // ---------------------------------------------------------------------------
  // Commands

  /** "+CGACT=<state>,<cid>" with the cid printed by "%d". */
  function CgactCommand(state: nat, cid: uint32): string
    requires state < 2
  {
    "+CGACT=" + NatToString(state) + "," + GuintAsInt(cid)
  }

  function DialCommand(cid: uint32): string {
    CgactCommand(1, cid)
  }

  function DisconnectCommand(cid: uint32): string {
    CgactCommand(0, cid)
  }

  function AddressQueryCommand(cid: uint32): string {
    "AT+CGPADDR=" + GuintAsInt(cid)
  }

  /** The DNS query names no context. */
  const DnsQueryCommand := "at+cgcontrdp"

  /**
   * The parameters of a +CGACT command read back: the state and the context
   * identifier, for every cid that "%d" prints without a sign.
   */
  lemma CgactCommandParameters(state: nat, cid: uint32)
    requires state < 2 && cid < 0x8000_0000
    ensures HasPrefix(CgactCommand(state, cid), "+CGACT=")
    ensures var f := Fields(CgactCommand(state, cid)[7..], ',');
      |f| == 2 && Atoi(f[0]) == state && Atoi(f[1]) == cid
  {
    CgactCommandFields(state, cid);
    AtoiNatToString(state);
    AtoiNatToString(cid);
  }

  lemma CgactCommandFields(state: nat, cid: uint32)
    requires state < 2 && cid < 0x8000_0000
    ensures HasPrefix(CgactCommand(state, cid), "+CGACT=")
    ensures Fields(CgactCommand(state, cid)[7..], ',') == [NatToString(state), NatToString(cid)]
  {
    var a, b := NatToString(state), NatToString(cid);
    var cmd := CgactCommand(state, cid);
    assert cmd == "+CGACT=" + (a + [','] + b);
    assert cmd[7..] == a + [','] + b;
    assert ',' !in a by { assert forall i | 0 <= i < |a| :: IsDigit(a[i]); }
    assert ',' !in b by { assert forall i | 0 <= i < |b| :: IsDigit(b[i]); }
    FieldsAppend(a, ',', b);
    FieldsOfPlain(b, ',');
  }

  // ---------------------------------------------------------------------------
  // Dial and disconnect

  /**
   * dial_3gpp and activate_pdp_finish: "+CGACT=1,<cid>" is sent and the dial
   * completes with the best network data port whatever the modem answered;
   * a failed activation is only kept in the context's saved error.
   */
  datatype DialOutcome = DialOutcome(command: string, port: Port, savedError: Option<string>)

  function Dial3gpp(cid: uint32, reply: AtReply, bestNetPort: Port): (r: DialOutcome)
    ensures r.command == DialCommand(cid)
    ensures r.port == bestNetPort
    ensures r.savedError.Some? <==> reply.CommandFailed?
  {
    DialOutcome(DialCommand(cid), bestNetPort,
                if reply.CommandFailed? then Some(reply.message) else None)
  }

  /**
   * disconnect_3gpp and cgact_ready: "+CGACT=0,<cid>" is sent and the
   * disconnection always reports success; a failure is only logged.
   */
  datatype DisconnectOutcome = DisconnectOutcome(command: string, result: bool)

  function Disconnect3gpp(cid: uint32, reply: AtReply): (r: DisconnectOutcome)
    ensures r.command == DisconnectCommand(cid)
    ensures r.result
  {
    DisconnectOutcome(DisconnectCommand(cid), true)
  }

  // ---------------------------------------------------------------------------
  // deztohexip
  /** Before the chunk at index `i`: a ':' when `i` is 2, 4, 6, ... */
  function Separator(i: nat): string {
    if i > 0 && i % 2 == 0 then ":" else ""
  }

  /** The hex chunks glued together, a ':' before every second one. */
  function Grouped(chunks: seq<string>): string
  {
    if |chunks| == 0 then []
    else Grouped(chunks[..|chunks| - 1]) + Separator(|chunks| - 1) + chunks[|chunks| - 1]
  }

  /** The "%02x" text of each dot-separated value. */
  function HexBytes(parts: seq<string>): (r: seq<string>)
    ensures |r| == |parts|
  {
    if |parts| == 0 then []
    else HexBytes(parts[..|parts| - 1]) + [Hex02(Atoi(parts[|parts| - 1]))]
  }

  /** What deztohexip appends for the dot-separated values `parts`. */
  function HexColon(parts: seq<string>): string {
    Grouped(HexBytes(parts))
  }

  /** deztohexip: the GString it appends to always starts out empty. */
  method DezToHexIp(dez: string) returns (output: string)
    ensures output == HexColon(Split(dez, '.'))
  {
    var parts := Split(dez, '.');
    ghost var chunks := HexBytes(parts);
    var c := |parts|;
    output := "";
    var i := 0;
    while i < c
      invariant 0 <= i <= c
      invariant output == Grouped(chunks[..i])
    {
      HexBytesAt(parts, i);
      GroupedStep(chunks, i);
      output := AppendHex(output, i, Hex02(Atoi(parts[i])));
      i := i + 1;
    }
    assert chunks[..c] == chunks;
  }

  /** One step of deztohexip's loop: a colon before every even index but the first, then the byte. */
  method AppendHex(output: string, i: nat, hex: string) returns (r: string)
    ensures r == output + Separator(i) + hex
  {
    r := output;
    if i == 0 {
      r := r + hex;
    } else {
      if i % 2 == 0 {
        r := r + ":";
      }
      r := r + hex;
    }
  }

  /** One more chunk appends its separator and itself. */
  lemma GroupedStep(chunks: seq<string>, i: nat)
    requires i < |chunks|
    ensures Grouped(chunks[..i + 1]) == Grouped(chunks[..i]) + Separator(i) + chunks[i]
  {
    assert chunks[..i + 1][..i] == chunks[..i];
  }

  /** The chunk of value i is the "%02x" text of its atoi. */
  lemma {:induction false} HexBytesAt(parts: seq<string>, i: nat)
    requires i < |parts|
    ensures HexBytes(parts)[i] == Hex02(Atoi(parts[i]))
    decreases |parts|
  {
    var m := |parts| - 1;
    var init := parts[..m];
    var last := Hex02(Atoi(parts[m]));
    assert HexBytes(parts) == HexBytes(init) + [last];
    if i < m {
      HexBytesAt(init, i);
      assert init[i] == parts[i];
      assert (HexBytes(init) + [last])[i] == HexBytes(init)[i];
    } else {
      assert |HexBytes(init)| == m;
      assert (HexBytes(init) + [last])[m] == last;
    }
  }

  /** Chunks of at least two hex digits, as "%02x" gives. */
  predicate HexChunks(chunks: seq<string>) {
    forall i | 0 <= i < |chunks| :: |chunks[i]| >= 2 && forall k | 0 <= k < |chunks[i]| :: IsHexDigit(chunks[i][k])
  }

  /** Chunks of exactly two hex digits, as "%02x" gives for a byte. */
  predicate HexPairs(chunks: seq<string>) {
    forall i | 0 <= i < |chunks| :: |chunks[i]| == 2 && IsHexDigit(chunks[i][0]) && IsHexDigit(chunks[i][1])
  }

  predicate AllBytes(parts: seq<string>) {
    forall i | 0 <= i < |parts| :: 0 <= Atoi(parts[i]) < 256
  }

  /** Where the two hex digits of the chunk at index `i` start. */
  function Offset(i: nat): nat {
    2 * i + i / 2
  }

  /** The length of the text for `n` two-digit chunks. */
  function TextLength(n: nat): nat {
    if n == 0 then 0 else 2 * n + (n - 1) / 2
  }

  /** Where chunk `m` and the separator before it fall. */
  lemma OffsetStep(m: nat)
    ensures TextLength(m) + |Separator(m)| == Offset(m)
    ensures TextLength(m + 1) == Offset(m) + 2
    ensures m > 0 && m % 2 == 0 ==> TextLength(m) % 5 == 4
    ensures Offset(m) % 5 == 0 || Offset(m) % 5 == 2
  {
    var j := m / 2;
    if m % 2 == 0 {
      assert m == 2 * j;
      assert Offset(m) == 5 * j;
      if m > 0 {
        assert TextLength(m) == 5 * j - 1;
      }
    } else {
      assert m == 2 * j + 1;
      assert Offset(m) == 5 * j + 2;
      assert TextLength(m) == 5 * j + 2;
    }
  }

  /** The digits of an earlier chunk end before the text of the first m chunks does. */
  lemma OffsetBound(i: nat, m: nat)
    requires i < m
    ensures Offset(i) + 2 <= TextLength(m)
  {
    OffsetStep(i);
    assert TextLength(i + 1) <= TextLength(m);
  }

  lemma HexPairsInit(chunks: seq<string>)
    requires HexPairs(chunks) && chunks != []
    ensures HexPairs(chunks[..|chunks| - 1])
  {
    var init := chunks[..|chunks| - 1];
    forall i | 0 <= i < |init| ensures |init[i]| == 2 && IsHexDigit(init[i][0]) && IsHexDigit(init[i][1]) {
      assert init[i] == chunks[i];
    }
  }

  /** n two-digit chunks make 2n + (n-1)/2 characters. */
  lemma {:induction false} GroupedLength(chunks: seq<string>)
    requires HexPairs(chunks)
    ensures |Grouped(chunks)| == TextLength(|chunks|)
    decreases |chunks|
  {
    if chunks != [] {
      var m := |chunks| - 1;
      HexPairsInit(chunks);
      GroupedLength(chunks[..m]);
      OffsetStep(m);
    }
  }

  /** The chunk at index i sits at Offset(i). */
  lemma GroupedOffsets(chunks: seq<string>)
    requires HexPairs(chunks)
    ensures forall i | 0 <= i < |chunks| ::
      Offset(i) + 2 <= |Grouped(chunks)| && Grouped(chunks)[Offset(i)..Offset(i) + 2] == chunks[i]
  {
    forall i | 0 <= i < |chunks|
      ensures Offset(i) + 2 <= |Grouped(chunks)| && Grouped(chunks)[Offset(i)..Offset(i) + 2] == chunks[i]
    {
      GroupedOffsetAt(chunks, i);
    }
  }

  lemma {:induction false} GroupedOffsetAt(chunks: seq<string>, i: nat)
    requires HexPairs(chunks) && i < |chunks|
    ensures Offset(i) + 2 <= |Grouped(chunks)| && Grouped(chunks)[Offset(i)..Offset(i) + 2] == chunks[i]
    decreases |chunks|
  {
    var m := |chunks| - 1;
    var init := chunks[..m];
    HexPairsInit(chunks);
    GroupedLength(init);
    OffsetStep(m);
    var pre := Grouped(init);
    var q := pre + Separator(m);
    var r := Grouped(chunks);
    assert r == q + chunks[m];
    var lo := Offset(i);
    if i < m {
      GroupedOffsetAt(init, i);
      OffsetBound(i, m);
      assert pre[lo..lo + 2] == chunks[i] by { assert init[i] == chunks[i]; }
      SliceOfPrefix(pre, Separator(m), lo, lo + 2);
      SliceOfPrefix(q, chunks[m], lo, lo + 2);
      assert r[lo..lo + 2] == pre[lo..lo + 2];
      assert lo + 2 <= |r| && r[lo..lo + 2] == chunks[i];
    } else {
      assert i == m && |chunks[m]| == 2 && lo == |q|;
      SliceOfSuffix(q, chunks[m], lo, lo + 2);
    }
  }

  lemma SliceOfPrefix(a: string, b: string, lo: nat, hi: nat)
    requires lo <= hi <= |a|
    ensures (a + b)[lo..hi] == a[lo..hi]
  {
  }

  lemma SliceOfSuffix(a: string, b: string, lo: nat, hi: nat)
    requires lo == |a| && hi == |a| + |b|
    ensures (a + b)[lo..hi] == b
  {
  }

  /** ':' stands exactly at the positions 4, 9, 14, ... */
  lemma {:induction false} GroupedColons(chunks: seq<string>)
    requires HexPairs(chunks)
    ensures forall k | 0 <= k < |Grouped(chunks)| :: Grouped(chunks)[k] == ':' <==> k % 5 == 4
    decreases |chunks|
  {
    if chunks != [] {
      var m := |chunks| - 1;
      var init := chunks[..m];
      HexPairsInit(chunks);
      GroupedColons(init);
      GroupedLength(init);
      OffsetStep(m);
      var pre := Grouped(init);
      var h := chunks[m];
      var r := Grouped(chunks);
      assert r == pre + Separator(m) + h;
      forall k | 0 <= k < |r|
        ensures r[k] == ':' <==> k % 5 == 4
      {
        if k < |pre| {
          assert r[k] == pre[k];
        } else {
          ColonPosition(m, k);
          if k < Offset(m) {
            assert r[k] == ':';
          } else {
            assert r[k] == h[k - Offset(m)];
            assert IsHexDigit(r[k]);
          }
        }
      }
    }
  }

  /** Past the first m chunks, only the separator before chunk m falls on a position 4 mod 5. */
  lemma ColonPosition(m: nat, k: nat)
    requires TextLength(m) <= k < Offset(m) + 2
    ensures k < Offset(m) ==> k % 5 == 4
    ensures k >= Offset(m) ==> k % 5 != 4
  {
    OffsetStep(m);
  }

  /** Whatever the chunks, the text is empty only for no chunk and never starts or ends with ':'. */
  lemma {:induction false} GroupedEdges(chunks: seq<string>)
    requires HexChunks(chunks)
    ensures Grouped(chunks) == [] <==> chunks == []
    ensures Grouped(chunks) != [] ==> Grouped(chunks)[0] != ':' && Grouped(chunks)[|Grouped(chunks)| - 1] != ':'
    decreases |chunks|
  {
    if chunks != [] {
      var m := |chunks| - 1;
      var init := chunks[..m];
      assert HexChunks(init) by {
        forall i | 0 <= i < |init| ensures |init[i]| >= 2 && forall k | 0 <= k < |init[i]| :: IsHexDigit(init[i][k]) {
          assert init[i] == chunks[i];
        }
      }
      GroupedEdges(init);
      var h := chunks[m];
      assert IsHexDigit(h[0]) && IsHexDigit(h[|h| - 1]);
      var r := Grouped(chunks);
      assert r == Grouped(init) + Separator(m) + h;
      if m == 0 {
        assert r == h;
      }
    }
  }

  /**
   * The layout of deztohexip's text for byte values: two hex digits per
   * value, the value at index i at Offset(i), and a ':' exactly at the
   * positions 4, 9, 14, ...; sixteen values make eight groups of four
   * digits, 39 characters in all.
   */
  lemma HexColonLayout(parts: seq<string>)
    requires AllBytes(parts)
    ensures |HexColon(parts)| == if parts == [] then 0 else 2 * |parts| + (|parts| - 1) / 2
    ensures forall i | 0 <= i < |parts| ::
      HexColon(parts)[Offset(i)..Offset(i) + 2] == Hex02(Atoi(parts[i]))
    ensures forall k | 0 <= k < |HexColon(parts)| :: HexColon(parts)[k] == ':' <==> k % 5 == 4
  {
    var chunks := HexBytes(parts);
    forall i | 0 <= i < |chunks| ensures |chunks[i]| == 2 && IsHexDigit(chunks[i][0]) && IsHexDigit(chunks[i][1]) {
      HexBytesAt(parts, i);
      Hex02Byte(Atoi(parts[i]));
    }
    forall i | 0 <= i < |parts| ensures chunks[i] == Hex02(Atoi(parts[i])) {
      HexBytesAt(parts, i);
    }
    GroupedLength(chunks);
    GroupedOffsets(chunks);
    GroupedColons(chunks);
  }

  /** Whatever the values, the text is empty only for an empty input and never starts or ends with ':'. */
  lemma HexColonEdges(dez: string)
    ensures HexColon(Split(dez, '.')) == [] <==> dez == []
    ensures HexColon(Split(dez, '.')) != [] ==>
      HexColon(Split(dez, '.'))[0] != ':' && HexColon(Split(dez, '.'))[|HexColon(Split(dez, '.'))| - 1] != ':'
  {
    var parts := Split(dez, '.');
    var chunks := HexBytes(parts);
    forall i | 0 <= i < |chunks| ensures |chunks[i]| >= 2 && forall k | 0 <= k < |chunks[i]| :: IsHexDigit(chunks[i][k]) {
      HexBytesAt(parts, i);
    }
    GroupedEdges(chunks);
  }

  /** Four byte values in dotted decimal become two colon-separated groups of four hex digits. */
  lemma DezToHexIpFour(a: nat, b: nat, c: nat, d: nat)
    requires a < 256 && b < 256 && c < 256 && d < 256
    ensures var dez := NatToString(a) + "." + NatToString(b) + "." + NatToString(c) + "." + NatToString(d);
      HexColon(Split(dez, '.')) == Hex02(a) + Hex02(b) + ":" + Hex02(c) + Hex02(d)
  {
    var parts := [NatToString(a), NatToString(b), NatToString(c), NatToString(d)];
    NoDotInDigits(parts[0]);
    NoDotInDigits(parts[1]);
    NoDotInDigits(parts[2]);
    NoDotInDigits(parts[3]);
    JoinFour(parts, '.');
    FieldsOfJoin(parts, '.');
    AtoiNatToString(a);
    AtoiNatToString(b);
    AtoiNatToString(c);
    AtoiNatToString(d);
    HexColonOfFour(parts, a, b, c, d);
  }

  /** The dotted-decimal text "32.1.13.184" becomes "2001:0db8". */
  lemma DezToHexIpExample()
    ensures HexColon(Split("32.1.13.184", '.')) == "2001:0db8"
  {
    var dez := NatToString(32) + "." + NatToString(1) + "." + NatToString(13) + "." + NatToString(184);
    ExampleDecimals();
    DezToHexIpFour(32, 1, 13, 184);
    ExampleHex();
    assert HexColon(Split(dez, '.')) == "2001:0db8";
  }

  lemma ExampleHex()
    ensures Hex02(32) + Hex02(1) + ":" + Hex02(13) + Hex02(184) == "2001:0db8"
  {
    Hex02Examples();
  }

  lemma ExampleDecimals()
    ensures NatToString(32) + "." + NatToString(1) + "." + NatToString(13) + "." + NatToString(184) == "32.1.13.184"
  {
    assert NatToString(32) == "32";
    assert NatToString(13) == "13";
    assert NatToString(18) == "18";
    assert NatToString(184) == "184";
  }

  lemma NoDotInDigits(s: string)
    requires AllDigits(s)
    ensures '.' !in s
  {
    assert forall i | 0 <= i < |s| :: IsDigit(s[i]);
  }

  lemma HexColonOfFour(parts: seq<string>, a: int, b: int, c: int, d: int)
    requires |parts| == 4
    requires Atoi(parts[0]) == a && Atoi(parts[1]) == b && Atoi(parts[2]) == c && Atoi(parts[3]) == d
    ensures HexColon(parts) == Hex02(a) + Hex02(b) + ":" + Hex02(c) + Hex02(d)
  {
    var chunks := HexBytes(parts);
    HexBytesAt(parts, 0);
    HexBytesAt(parts, 1);
    HexBytesAt(parts, 2);
    HexBytesAt(parts, 3);
    GroupedFour(chunks);
  }

  lemma GroupedFour(chunks: seq<string>)
    requires |chunks| == 4
    ensures Grouped(chunks) == chunks[0] + chunks[1] + ":" + chunks[2] + chunks[3]
  {
    var c1, c2, c3 := chunks[..1], chunks[..2], chunks[..3];
    assert c1[..0] == [];
    assert Grouped(c1) == chunks[0];
    assert c2[..1] == c1;
    assert Grouped(c2) == chunks[0] + chunks[1];
    assert c3[..2] == c2;
    assert Grouped(c3) == chunks[0] + chunks[1] + ":" + chunks[2];
    assert chunks[..3] == c3;
  }

  lemma Hex02Examples()
    ensures Hex02(32) == "20" && Hex02(1) == "01" && Hex02(13) == "0d" && Hex02(184) == "b8"
  {
    Hex02Byte(32);
    Hex02Byte(1);
    Hex02Byte(13);
    Hex02Byte(184);
  }

  // ---------------------------------------------------------------------------
  // parse_ip

  /** The +CGPADDR reply fields: tag stripped, quotes deleted, split on ','. */
  function CgpaddrFields(response: string): seq<string> {
    Split(Without(StripTag(response, "+CGPADDR: "), '"'), ',')
  }

  /** How many dot-separated parts an address has. */
  function DotParts(address: string): nat {
    |Split(address, '.')|
  }

  /**
   * One address of the reply: 2 to 4 parts make IPv4 static with the
   * address as its own gateway and prefix 32; more than 5 make IPv6 DHCP.
   */
  function ApplyAddress(address: string, v4: IpConfigValue, v6: IpConfigValue): (IpConfigValue, IpConfigValue)
  {
    var c := DotParts(address);
    (if 1 < c < 5 then v4.(ipMethod := Static, address := Some(address), prefix := 32, gateway := Some(address)) else v4,
     if c > 5 then v6.(ipMethod := Dhcp) else v6)
  }

  datatype ParseIpOutcome = ParseIpOutcome(ok: bool, error: Option<BearerError>, ipv4: IpConfigValue, ipv6: IpConfigValue)

  /** parse_ip on configuration values. */
  function ParseIpSpec(response: Option<string>, v4: IpConfigValue, v6: IpConfigValue): ParseIpOutcome
  {
    if response.None? || !HasPrefix(response.value, "+CGPADDR") then
      ParseIpOutcome(false, Some(MissingCgpaddrPrefix), v4, v6)
    else
      var data := CgpaddrFields(response.value);
      if |data| != 3 then
        ParseIpOutcome(true, Some(CgpaddrMismatch), v4, v6)
      else
        var first := ApplyAddress(data[1], v4.(ipMethod := Unknown), v6.(ipMethod := Unknown));
        var second := ApplyAddress(data[2], first.0, first.1);
        ParseIpOutcome(true, None, second.0, second.1)
  }

  /** parse_ip: decodes a +CGPADDR reply into the two configurations. */
  method ParseIp(response: Option<string>, v4: IpConfig, v6: IpConfig) returns (ok: bool, error: Option<BearerError>)
    requires v4 != v6
    modifies v4, v6
    ensures ParseIpOutcome(ok, error, v4.Value(), v6.Value()) == ParseIpSpec(response, old(v4.Value()), old(v6.Value()))
  {
    if response.None? || !HasPrefix(response.value, "+CGPADDR") {
      return false, Some(MissingCgpaddrPrefix);
    }
    var s := Without(StripTag(response.value, "+CGPADDR: "), '"');
    var data := Split(s, ',');
    if |data| != 3 {
      return true, Some(CgpaddrMismatch);
    }
    var ip1, ip2 := data[1], data[2];
    v4.ipMethod := Unknown;
    v6.ipMethod := Unknown;

    var c := |Split(ip1, '.')|;
    if c < 5 && c > 1 {
      v4.ipMethod := Static;
      v4.address := Some(ip1);
      v4.prefix := 32;
      v4.gateway := Some(ip1);
    }
    if c > 5 {
      v6.ipMethod := Dhcp;
    }

    c := |Split(ip2, '.')|;
    if c < 5 && c > 1 {
      v4.ipMethod := Static;
      v4.address := Some(ip2);
      v4.prefix := 32;
      v4.gateway := Some(ip2);
    }
    if c > 5 {
      v6.ipMethod := Dhcp;
      // the converted text is only logged
      var ipv6 := DezToHexIp(ip2);
    }
    return true, None;
  }

  /** parse_ip fails exactly when there is no reply or it lacks the +CGPADDR prefix, and then changes nothing. */
  lemma ParseIpFailure(response: Option<string>, v4: IpConfigValue, v6: IpConfigValue)
    ensures var p := ParseIpSpec(response, v4, v6);
      (!p.ok <==> response.None? || !HasPrefix(response.value, "+CGPADDR"))
      && (!p.ok ==> p.error == Some(MissingCgpaddrPrefix) && p.ipv4 == v4 && p.ipv6 == v6)
  {
  }

  /** A reply with other than three fields sets an error yet parse_ip returns TRUE, configurations untouched. */
  lemma ParseIpWrongFieldCount(response: string, v4: IpConfigValue, v6: IpConfigValue)
    requires HasPrefix(response, "+CGPADDR")
    requires |CgpaddrFields(response)| != 3
    ensures ParseIpSpec(Some(response), v4, v6) == ParseIpOutcome(true, Some(CgpaddrMismatch), v4, v6)
  {
  }

  /**
   * With three fields: IPv4 is static exactly when one of the two addresses
   * has 2 to 4 dot parts, and then holds the second such address (the second
   * field overwrites the first) as address and gateway, prefix 32; IPv6 is
   * DHCP exactly when one has more than 5 parts; otherwise both are UNKNOWN.
   * The DNS lists are left as they were.
   */
  lemma ParseIpAddresses(response: string, v4: IpConfigValue, v6: IpConfigValue)
    requires HasPrefix(response, "+CGPADDR")
    requires |CgpaddrFields(response)| == 3
    ensures var data := CgpaddrFields(response);
      var p := ParseIpSpec(Some(response), v4, v6);
      var isV4 := (a: string) => 1 < DotParts(a) < 5;
      && p.ok && p.error.None?
      && (p.ipv4.ipMethod == Static <==> isV4(data[1]) || isV4(data[2]))
      && (p.ipv4.ipMethod != Static ==> p.ipv4 == v4.(ipMethod := Unknown))
      && (isV4(data[2]) ==> p.ipv4 == v4.(ipMethod := Static, address := Some(data[2]), prefix := 32, gateway := Some(data[2])))
      && (isV4(data[1]) && !isV4(data[2]) ==>
            p.ipv4 == v4.(ipMethod := Static, address := Some(data[1]), prefix := 32, gateway := Some(data[1])))
      && (p.ipv6 == v6.(ipMethod := if DotParts(data[1]) > 5 || DotParts(data[2]) > 5 then Dhcp else Unknown))
  {
  }

  /** A text between double quotes, as the modem writes addresses. */
  function Quoted(s: string): string {
    "\"" + s + "\""
  }

  /** The address query's reply for cid 5 naming the IPv4 address 10.0.0.7 and the dotted IPv6 address `v6`. */
  function ExampleCgpaddrReply(v6: string): string {
    "+CGPADDR: " + ("5," + Quoted("10.0.0.7") + "," + Quoted(v6))
  }

  /**
   * A reply naming one IPv4 and one IPv6 address gives a static IPv4
   * configuration at that address and DHCP for IPv6, for instance with
   * v6 = "2001.0db8.0000.0000.0000.0000.0000.0001".
   */
  lemma ParseIpExample(v6: string)
    requires '"' !in v6 && ',' !in v6 && DotParts(v6) > 5
    ensures ParseIpSpec(Some(ExampleCgpaddrReply(v6)), NewIpConfig, NewIpConfig)
         == ParseIpOutcome(true, None,
                           IpConfigValue(Static, Some("10.0.0.7"), 32, Some("10.0.0.7"), []),
                           NewIpConfig.(ipMethod := Dhcp))
  {
    var v4 := "10.0.0.7";
    var body := "5," + Quoted(v4) + "," + Quoted(v6);
    var reply := ExampleCgpaddrReply(v6);
    StripTagExample(body);
    assert ',' !in v4 && '"' !in v4;
    WithoutQuotesExample(v4, v6);
    FieldsOfJoin(["5", v4, v6], ',');
    assert CgpaddrFields(reply) == ["5", v4, v6];
    DotPartsV4Example(v4);
    ParseIpAddresses(reply, NewIpConfig, NewIpConfig);
  }

  lemma StripTagExample(body: string)
    requires body != [] && body[0] == '5'
    ensures HasPrefix("+CGPADDR: " + body, "+CGPADDR")
    ensures StripTag("+CGPADDR: " + body, "+CGPADDR: ") == body
  {
    var tag := "+CGPADDR: ";
    var reply := tag + body;
    assert reply[..8] == tag[..8] == "+CGPADDR";
    assert reply[..|tag|] == tag;
    assert reply[|tag|..] == body;
    SkipSpaceNone(body);
  }

  /** Deleting the quotes of a quoted text leaves the text. */
  lemma WithoutQuoted(s: string)
    requires '"' !in s
    ensures Without(Quoted(s), '"') == s
  {
    var q := "\"";
    assert Without(q, '"') == [];
    WithoutPlain(s, '"');
    WithoutConcat(q + s, q, '"');
    WithoutConcat(q, s, '"');
  }

  lemma WithoutQuotesExample(v4: string, v6: string)
    requires '"' !in v4 && '"' !in v6
    ensures Without("5," + Quoted(v4) + "," + Quoted(v6), '"') == Join(["5", v4, v6], ',')
  {
    WithoutQuoted(v4);
    WithoutQuoted(v6);
    WithoutPlain("5,", '"');
    WithoutPlain(",", '"');
    WithoutConcat("5," + Quoted(v4) + ",", Quoted(v6), '"');
    WithoutConcat("5," + Quoted(v4), ",", '"');
    WithoutConcat("5,", Quoted(v4), '"');
    var parts := ["5", v4, v6];
    assert parts[1..] == [v4, v6] && parts[1..][1..] == [v6];
    assert Join([v6], ',') == v6;
    assert Join([v4, v6], ',') == v4 + [','] + v6;
    assert Join(parts, ',') == "5" + [','] + Join([v4, v6], ',');
  }

  lemma DotPartsV4Example(v4: string)
    requires v4 == "10.0.0.7"
    ensures DotParts(v4) == 4
  {
    var parts := ["10", "0", "0", "7"];
    assert Join(parts, '.') == v4;
    FieldsOfJoin(parts, '.');
  }

  // ---------------------------------------------------------------------------
  // ip_config_dns_gw_ready

  /** The +CGCONTRDP reply fields: tag stripped, quotes deleted, split on ','. */
  function CgcontrdpFields(response: string): seq<string> {
    Split(Without(StripTag(response, "+CGCONTRDP: "), '"'), ',')
  }

  /** The DNS step on configuration values. */
  function DnsSpec(response: Option<string>, v4: IpConfigValue, v6: IpConfigValue): Result<(IpConfigValue, IpConfigValue), BearerError>
  {
    if response.None? || !HasPrefix(response.value, "+CGCONTRDP") then Failure(MissingCgcontrdpPrefix)
    else
      var data := CgcontrdpFields(response.value);
      if |data| < 30 then Failure(CgcontrdpMismatch)
      else Success((v4.(dns := [data[5], data[6]]),
                    v6.(dns := [HexColon(Split(data[28], '.')), HexColon(Split(data[29], '.'))])))
  }

  /**
   * The DNS step fails without the +CGCONTRDP prefix or with fewer than 30
   * fields; otherwise IPv4 gets fields 5 and 6 verbatim and IPv6 the
   * colon-hex forms of fields 28 and 29, nothing else changing.
   */
  lemma DnsOutcome(response: Option<string>, v4: IpConfigValue, v6: IpConfigValue)
    ensures var r := DnsSpec(response, v4, v6);
      && (r.Failure? <==> response.None? || !HasPrefix(response.value, "+CGCONTRDP")
                          || |CgcontrdpFields(response.value)| < 30)
      && (r.Success? ==>
            var data := CgcontrdpFields(response.value);
            && r.value.0 == v4.(dns := [data[5], data[6]])
            && r.value.1.dns == [HexColon(Split(data[28], '.')), HexColon(Split(data[29], '.'))]
            && r.value.1 == v6.(dns := r.value.1.dns))
  {
  }

  /** ip_config_dns_gw_ready: sets both DNS lists and completes with the connect result. */
  method IpConfigDnsGwReady(reply: AtReply, v4: IpConfig, v6: IpConfig, bestNetPort: Port)
    returns (result: Result<ConnectResult, BearerError>)
    requires v4 != v6
    modifies v4, v6
    ensures var spec := DnsSpec(reply.Text(), old(v4.Value()), old(v6.Value()));
      && (spec.Failure? ==> result == Failure(spec.error) && v4.Value() == old(v4.Value()) && v6.Value() == old(v6.Value()))
      && (spec.Success? ==> result == Success(ConnectResult(bestNetPort, v4, v6)) && (v4.Value(), v6.Value()) == spec.value)
  {
    if reply.CommandFailed? || !HasPrefix(reply.text, "+CGCONTRDP") {
      return Failure(MissingCgcontrdpPrefix);
    }
    var s := Without(StripTag(reply.text, "+CGCONTRDP: "), '"');
    var data := Split(s, ',');
    if |data| < 30 {
      return Failure(CgcontrdpMismatch);
    }
    var dns1, dns2 := data[5], data[6];
    var dnsv61 := DezToHexIp(data[28]);
    var dnsv62 := DezToHexIp(data[29]);
    v4.dns := [dns1, dns2];
    v6.dns := [dnsv61, dnsv62];
    return Success(ConnectResult(bestNetPort, v4, v6));
  }

  // ---------------------------------------------------------------------------
  // get_ip_config_3gpp and ip_config_ipaddress_ready

  /** The whole IP configuration step on values, starting from two new configurations. */
  function GetIpConfigSpec(addressReply: AtReply, dnsReply: AtReply): Result<(IpConfigValue, IpConfigValue), BearerError>
  {
    if addressReply.CommandFailed? then Failure(AtFailed(addressReply.message))
    else
      var p := ParseIpSpec(Some(addressReply.text), NewIpConfig, NewIpConfig);
      if !p.ok then Failure(MissingCgpaddrPrefix)
      else DnsSpec(dnsReply.Text(), p.ipv4, p.ipv6)
  }

  /** The commands the step sends: the address query, then the DNS query when the address reply parsed. */
  function GetIpConfigCommands(cid: uint32, addressReply: AtReply): seq<string>
  {
    if addressReply.CommandFailed? || !HasPrefix(addressReply.text, "+CGPADDR") then [AddressQueryCommand(cid)]
    else [AddressQueryCommand(cid), DnsQueryCommand]
  }

  /**
   * get_ip_config_3gpp, ip_config_ipaddress_ready and ip_config_dns_gw_ready
   * in sequence, with the two AT replies given.
   */
  method GetIpConfig3gpp(cid: uint32, addressReply: AtReply, dnsReply: AtReply, bestNetPort: Port)
    returns (sent: seq<string>, result: Result<ConnectResult, BearerError>)
    ensures sent == GetIpConfigCommands(cid, addressReply)
    ensures var spec := GetIpConfigSpec(addressReply, dnsReply);
      && (spec.Failure? ==> result == Failure(spec.error))
      && (spec.Success? ==> result.Success? && result.value.port == bestNetPort
                            && fresh(result.value.ipv4) && fresh(result.value.ipv6)
                            && (result.value.ipv4.Value(), result.value.ipv6.Value()) == spec.value)
  {
    sent := [AddressQueryCommand(cid)];
    var v4 := new IpConfig();
    var v6 := new IpConfig();
    if addressReply.CommandFailed? {
      return sent, Failure(AtFailed(addressReply.message));
    }
    var ok, error := ParseIp(Some(addressReply.text), v4, v6);
    if !ok {
      return sent, Failure(error.value);
    }
    sent := sent + [DnsQueryCommand];
    result := IpConfigDnsGwReady(dnsReply, v4, v6, bestNetPort);
  }

  /**
   * A connection is only reported when the DNS reply carries the
   * +CGCONTRDP prefix and at least 30 fields; a shorter reply always fails.
   */
  lemma ConnectedNeedsFullDnsReply(addressReply: AtReply, dnsReply: AtReply)
    ensures GetIpConfigSpec(addressReply, dnsReply).Success? ==>
      dnsReply.Response? && HasPrefix(dnsReply.text, "+CGCONTRDP") && |CgcontrdpFields(dnsReply.text)| >= 30
    ensures dnsReply.Response? && HasPrefix(dnsReply.text, "+CGCONTRDP") && |CgcontrdpFields(dnsReply.text)| < 30 ==>
      GetIpConfigSpec(addressReply, dnsReply).Failure?
  {
  }

  /**
   * A +CGPADDR reply without exactly three fields does not stop the step:
   * the DNS query still goes out and the configurations stay as new.
   */
  lemma MalformedAddressReplyNotFatal(cid: uint32, addressReply: AtReply, dnsReply: AtReply)
    requires addressReply.Response? && HasPrefix(addressReply.text, "+CGPADDR")
    requires |CgpaddrFields(addressReply.text)| != 3
    ensures GetIpConfigCommands(cid, addressReply) == [AddressQueryCommand(cid), DnsQueryCommand]
    ensures GetIpConfigSpec(addressReply, dnsReply) == DnsSpec(dnsReply.Text(), NewIpConfig, NewIpConfig)
  {
  }
}
