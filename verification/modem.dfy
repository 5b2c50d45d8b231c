/**
 * The FM350-GL modem codecs: the vendor +GTACT radio-access and band
 * numbers against ModemManager's mode masks and band numbers, the +CSQ
 * signal scaling (3GPP TS 27.007 section 8.5) and the +CGDCONT=? profile
 * range fallback (section 10.1.1).
 */
module Fm350Modem {
  import opened Wrappers
  import opened Text
  import opened AtChannel

  /** The MMModemMode bits a mode mask can hold here. */
  datatype Mode = Cs | G2 | G3 | G4 | G5

  /** An allowed/preferred pair; an empty `preferred` is MM_MODEM_MODE_NONE. */
  datatype ModeCombination = ModeCombination(allowed: set<Mode>, preferred: set<Mode>)

  const AllRadios: set<Mode> := {G3, G4, G5}

  /** The errors the plugin reports. */
  datatype ModemError =
    | AtFailed(message: string)  // the AT command itself failed
    | ParseFailed(message: string)

  const SupportedBandsParseError := "Failed to parse supported bands response"
  const RatsParseError := "Failed to parse Rats response"

  // ---------------------------------------------------------------------------
  // Modes

  /** load_supported_modes: the twelve combinations, single radios without a preference. */
  function SupportedModes(): (r: seq<ModeCombination>)
    ensures |r| == 12
  {
    [ ModeCombination({G3}, {}),
      ModeCombination({G4}, {}),
      ModeCombination({G5}, {}),
      ModeCombination({G3, G4}, {G3}),
      ModeCombination({G3, G4}, {G4}),
      ModeCombination({G3, G5}, {G3}),
      ModeCombination({G3, G5}, {G5}),
      ModeCombination({G4, G5}, {G4}),
      ModeCombination({G4, G5}, {G5}),
      ModeCombination({G3, G4, G5}, {G3}),
      ModeCombination({G3, G4, G5}, {G4}),
      ModeCombination({G3, G4, G5}, {G5}) ]
  }

  /** A non-empty set of 3G, 4G, 5G; no preference for a single radio, one of them preferred for several. */
  predicate RadioCombination(c: ModeCombination) {
    && c.allowed <= AllRadios && c.allowed != {}
    && (|c.allowed| == 1 ==> c.preferred == {})
    && (|c.allowed| > 1 ==> exists m :: m in c.allowed && c.preferred == {m})
  }

  /**
   * The list holds exactly the combinations of 3G, 4G and 5G where a single
   * radio comes without a preference and several come with one of them
   * preferred, each once.
   */
  lemma SupportedModesExactly(c: ModeCombination)
    ensures c in SupportedModes() <==> RadioCombination(c)
    ensures forall i, j | 0 <= i < j < 12 :: SupportedModes()[i] != SupportedModes()[j]
  {
    if RadioCombination(c) {
      SupportedModesComplete(c);
    }
    if c in SupportedModes() {
      var i :| 0 <= i < 12 && SupportedModes()[i] == c;
      SupportedModesSound(i);
    }
    SupportedModesDistinct();
  }

  lemma SupportedModesDistinct()
    ensures forall i, j | 0 <= i < j < 12 :: SupportedModes()[i] != SupportedModes()[j]
  {
  }

  lemma SupportedModesSound(i: nat)
    requires i < 12
    ensures RadioCombination(SupportedModes()[i])
  {
    var c := SupportedModes()[i];
    if i >= 3 {
      var m := if i == 3 || i == 5 || i == 9 then G3 else if i == 4 || i == 7 || i == 10 then G4 else G5;
      assert m in c.allowed && c.preferred == {m};
      assert |c.allowed| > 1 by {
        assert c.allowed != {m};
        assert {m} < c.allowed;
      }
    }
  }

  lemma SupportedModesComplete(c: ModeCombination)
    requires RadioCombination(c)
    ensures c in SupportedModes()
  {
    var a, p := c.allowed, c.preferred;
    SubsetsOfRadios(a);
    if |a| > 1 {
      var m :| m in a && p == {m};
    }
  }

  /** Every non-empty set of radios is one of the seven the +GTACT table knows. */
  lemma SubsetsOfRadios(a: set<Mode>)
    requires a <= AllRadios && a != {}
    ensures a in {{G3}, {G4}, {G5}, {G3, G4}, {G3, G5}, {G4, G5}, {G3, G4, G5}}
  {
    if G3 in a {
      if G4 in a {
        if G5 in a { assert a == {G3, G4, G5}; } else { assert a == {G3, G4}; }
      } else {
        if G5 in a { assert a == {G3, G5}; } else { assert a == {G3}; }
      }
    } else if G4 in a {
      if G5 in a { assert a == {G4, G5}; } else { assert a == {G4}; }
    } else {
      assert a == {G5};
    }
  }

  /** The allowed set a +GTACT RAT code stands for; an unlisted code keeps the default of all three. */
  function AllowedOfRat(code: string): (a: set<Mode>)
    ensures a <= AllRadios && a != {}
  {
    if code == "1" then {G3}
    else if code == "2" then {G4}
    else if code == "4" then {G3, G4}
    else if code == "14" then {G5}
    else if code == "16" then {G3, G5}
    else if code == "17" then {G4, G5}
    else AllRadios
  }

  /** The preferred mode a +GTACT preference code stands for; anything else is none. */
  function PreferredOfCode(code: string): (p: set<Mode>)
    ensures p == {} || p == {G3} || p == {G4} || p == {G5}
  {
    if code == "2" then {G3}
    else if code == "3" then {G4}
    else if code == "6" then {G5}
    else {}
  }

  /**
   * load_current_modes_finish: the answer to AT+GTACT? read as
   * "<rat>,<preference>,..."; a failed command or fewer than two fields keep
   * the defaults (all three allowed, none preferred). It always succeeds.
   */
  function LoadCurrentModes(reply: AtReply): (c: ModeCombination)
    ensures c.allowed <= AllRadios && c.allowed != {}
    ensures c.preferred == {} || c.preferred == {G3} || c.preferred == {G4} || c.preferred == {G5}
  {
    if reply.CommandFailed? then ModeCombination(AllRadios, {})
    else
      var data := Split(StripTag(reply.text, "+GTACT: "), ',');
      if |data| < 2 then ModeCombination(AllRadios, {})
      else ModeCombination(AllowedOfRat(data[0]), PreferredOfCode(data[1]))
  }

  /** The default the decode keeps when the reply says nothing usable. */
  lemma LoadCurrentModesDefault(reply: AtReply)
    requires reply.CommandFailed? || |Split(StripTag(reply.text, "+GTACT: "), ',')| < 2
    ensures LoadCurrentModes(reply) == ModeCombination(AllRadios, {})
  {
  }

  /** The +GTACT RAT code for an allowed set: the seven known sets, 20 for any other. */
  function RatCode(allowed: set<Mode>): (code: nat)
    ensures code in {1, 2, 4, 14, 16, 17, 20}
  {
    if allowed == {G3} then 1
    else if allowed == {G4} then 2
    else if allowed == {G3, G4} then 4
    else if allowed == {G5} then 14
    else if allowed == {G3, G5} then 16
    else if allowed == {G4, G5} then 17
    else 20
  }

  /** The +GTACT preference code: 2, 3, 6 for a single 3G, 4G, 5G, otherwise 0. */
  function PrefCode(preferred: set<Mode>): (code: nat)
    ensures code in {0, 2, 3, 6}
  {
    if preferred == {G3} then 2
    else if preferred == {G4} then 3
    else if preferred == {G5} then 6
    else 0
  }

  /** modem_set_current_modes: "+GTACT=<rat>" without a preference, "+GTACT=<rat>,<pref>" with one. */
  function SetModesCommand(allowed: set<Mode>, preferred: set<Mode>): string
  {
    var rat, pref := RatCode(allowed), PrefCode(preferred);
    if pref == 0 then "+GTACT=" + IntToString(rat)
    else "+GTACT=" + IntToString(rat) + "," + IntToString(pref)
  }

  /** The parameters of the set-modes command: the RAT code, then the preference code unless it is 0. */
  lemma SetModesCommandFields(allowed: set<Mode>, preferred: set<Mode>)
    ensures HasPrefix(SetModesCommand(allowed, preferred), "+GTACT=")
    ensures Split(SetModesCommand(allowed, preferred)[7..], ',')
      == if PrefCode(preferred) == 0 then [NatToString(RatCode(allowed))]
         else [NatToString(RatCode(allowed)), NatToString(PrefCode(preferred))]
  {
    var a, b := NatToString(RatCode(allowed)), NatToString(PrefCode(preferred));
    var cmd := SetModesCommand(allowed, preferred);
    assert ',' !in a by { assert forall i | 0 <= i < |a| :: IsDigit(a[i]); }
    if PrefCode(preferred) == 0 {
      assert cmd == "+GTACT=" + a;
      assert cmd[7..] == a;
      FieldsOfPlain(a, ',');
    } else {
      assert cmd == "+GTACT=" + (a + [','] + b);
      assert cmd[7..] == a + [','] + b;
      assert ',' !in b by { assert forall i | 0 <= i < |b| :: IsDigit(b[i]); }
      FieldsAppend(a, ',', b);
      FieldsOfPlain(b, ',');
    }
  }

  /**
   * modem_set_current_modes and its finish: one "+GTACT=" command is sent
   * and the operation reports success whatever the modem answers.
   */
  datatype SetModesOutcome = SetModesOutcome(command: string, result: bool)

  function SetCurrentModes(allowed: set<Mode>, preferred: set<Mode>, reply: AtReply): (r: SetModesOutcome)
    ensures r.command == SetModesCommand(allowed, preferred)
    ensures r.result
  {
    SetModesOutcome(SetModesCommand(allowed, preferred), true)
  }

  /** Any set outside the table is sent as 20, the code for all three radios. */
  lemma RatCodeDefault(allowed: set<Mode>)
    ensures RatCode(allowed) == 20 <==> allowed !in {{G3}, {G4}, {G3, G4}, {G5}, {G3, G5}, {G4, G5}}
  {
  }

  /** The decode and encode tables agree on every RAT code, in both directions. */
  lemma RatCodeRoundTrip(allowed: set<Mode>, code: nat)
    ensures allowed <= AllRadios && allowed != {} ==> AllowedOfRat(NatToString(RatCode(allowed))) == allowed
    ensures code in {1, 2, 4, 14, 16, 17, 20} ==> RatCode(AllowedOfRat(NatToString(code))) == code
  {
    if allowed <= AllRadios && allowed != {} {
      RatCodeEncodeDecode(allowed);
    }
    if code in {1, 2, 4, 14, 16, 17, 20} {
      RatCodeDecodeEncode(code);
    }
  }

  lemma RatCodeEncodeDecode(allowed: set<Mode>)
    requires allowed <= AllRadios && allowed != {}
    ensures AllowedOfRat(NatToString(RatCode(allowed))) == allowed
  {
    SubsetsOfRadios(allowed);
    NatToStringSmall();
  }

  lemma RatCodeDecodeEncode(code: nat)
    requires code in {1, 2, 4, 14, 16, 17, 20}
    ensures RatCode(AllowedOfRat(NatToString(code))) == code
  {
    NatToStringSmall();
  }

  /** The decode and encode tables agree on every preference code, in both directions. */
  lemma PrefCodeRoundTrip(preferred: set<Mode>, code: nat)
    ensures preferred in {{G3}, {G4}, {G5}} ==> PreferredOfCode(NatToString(PrefCode(preferred))) == preferred
    ensures code in {2, 3, 6} ==> PrefCode(PreferredOfCode(NatToString(code))) == code
  {
    NatToStringSmall();
  }

  lemma NatToStringSmall()
    ensures NatToString(0) == "0" && NatToString(1) == "1" && NatToString(2) == "2" && NatToString(3) == "3"
    ensures NatToString(4) == "4" && NatToString(6) == "6" && NatToString(14) == "14"
    ensures NatToString(16) == "16" && NatToString(17) == "17" && NatToString(20) == "20"
  {
  }

  /** The modem's answer to AT+GTACT? after a set: "+GTACT: <rat>,<pref>". */
  function GtactModesReply(rat: nat, pref: nat): string {
    "+GTACT: " + NatToString(rat) + "," + NatToString(pref)
  }

  /** Every listed combination allows some of 3G, 4G, 5G and prefers at most one of them. */
  lemma SupportedModesShape(c: ModeCombination)
    requires c in SupportedModes()
    ensures c.allowed <= AllRadios && c.allowed != {}
    ensures c.preferred in {{}, {G3}, {G4}, {G5}}
  {
    var i :| 0 <= i < 12 && SupportedModes()[i] == c;
  }

  /** A modes reply carrying two numbers decodes through the two tables. */
  lemma GtactModesDecode(rat: nat, pref: nat)
    ensures LoadCurrentModes(Response(GtactModesReply(rat, pref)))
      == ModeCombination(AllowedOfRat(NatToString(rat)), PreferredOfCode(NatToString(pref)))
  {
    GtactFields(NatToString(rat), NatToString(pref));
  }

  /**
   * Setting any supported combination and reading the codes back gives the
   * same combination: the encode and decode tables are inverse on the list.
   */
  lemma SetThenLoadModes(c: ModeCombination)
    requires c in SupportedModes()
    ensures LoadCurrentModes(Response(GtactModesReply(RatCode(c.allowed), PrefCode(c.preferred)))) == c
  {
    SupportedModesShape(c);
    GtactModesDecode(RatCode(c.allowed), PrefCode(c.preferred));
    RatCodeEncodeDecode(c.allowed);
    PrefCodeEncodeDecode(c.preferred);
  }

  /**
   * The same on the text sent: the fields of the set-modes command for a
   * supported combination, reported back as "+GTACT: <rat>,<pref>" with a
   * missing preference reported as 0, decode to that combination.
   */
  lemma SetModesCommandThenLoad(c: ModeCombination)
    requires c in SupportedModes()
    ensures var f := Split(SetModesCommand(c.allowed, c.preferred)[7..], ',');
      1 <= |f| <= 2
      && LoadCurrentModes(Response("+GTACT: " + f[0] + "," + (if |f| == 2 then f[1] else "0"))) == c
  {
    SetModesCommandFields(c.allowed, c.preferred);
    NatToStringSmall();
    SetThenLoadModes(c);
  }

  lemma PrefCodeEncodeDecode(preferred: set<Mode>)
    requires preferred in {{}, {G3}, {G4}, {G5}}
    ensures PreferredOfCode(NatToString(PrefCode(preferred))) == preferred
  {
    NatToStringSmall();
  }

  /** The two numbers of a +GTACT modes reply come back as its first two fields. */
  lemma GtactFields(rat: string, pref: string)
    requires rat != [] && AllDigits(rat) && AllDigits(pref)
    ensures Split(StripTag("+GTACT: " + rat + "," + pref, "+GTACT: "), ',') == [rat, pref]
  {
    var tag := "+GTACT: ";
    var body := rat + "," + pref;
    assert tag + rat + "," + pref == tag + body;
    assert (tag + body)[..|tag|] == tag;
    assert (tag + body)[|tag|..] == body;
    assert !IsSpace(body[0]) by { assert body[0] == rat[0] && IsDigit(rat[0]); }
    SkipSpaceNone(body);
    assert ',' !in rat by { assert forall i | 0 <= i < |rat| :: IsDigit(rat[i]); }
    assert ',' !in pref by { assert forall i | 0 <= i < |pref| :: IsDigit(pref[i]); }
    FieldsAppend(rat, ',', pref);
    FieldsOfPlain(pref, ',');
  }

  /** Reading codes from a reply and sending them back reproduces the codes the table knows. */
  lemma LoadThenSetModes(rat: nat, pref: nat)
    requires rat in {1, 2, 4, 14, 16, 17, 20} && pref in {0, 2, 3, 6}
    ensures var c := LoadCurrentModes(Response(GtactModesReply(rat, pref)));
      RatCode(c.allowed) == rat && PrefCode(c.preferred) == pref
  {
    GtactModesDecode(rat, pref);
    RatCodeRoundTrip({}, rat);
    PrefCodeRoundTrip({}, pref);
    NatToStringSmall();
  }

  // ---------------------------------------------------------------------------
  // Signal quality

  /** CLAMP (q, 0, 31) * 100 / 31 with C's integer division (non-negative here). */
  function ScaleQuality(q: int): (r: nat)
    ensures r <= 100
  {
    var c := if q < 0 then 0 else if q > 31 then 31 else q;
    c * 100 / 31
  }

  /**
   * load_signal_quality_finish: a failed command returns its error (with
   * quality 0); an empty reply gives 0; otherwise the first "%d" after
   * "+CSQ:" is scaled, 99 ("not known") giving 0. When no number is found
   * the result is 0 as well (sscanf either matches nothing, or hits the end
   * of the text and leaves the initial 0).
   */
  function SignalQuality(reply: AtReply): (r: Result<nat, string>)
    ensures r.Failure? <==> reply.CommandFailed?
    ensures r.Failure? ==> r.error == reply.message
    ensures r.Success? ==> r.value <= 100
  {
    if reply.CommandFailed? then Failure(reply.message)
    else if reply.text == [] then Success(0)
    else
      match ScanInt(StripTag(reply.text, "+CSQ:"))
      case None => Success(0)
      case Some(v) => Success(if v == 99 then 0 else ScaleQuality(v))
  }

  /** An empty reply, or one without a number after the tag, reads as quality 0 without an error. */
  lemma SignalQualityNoNumber(text: string)
    requires text == [] || ScanInt(StripTag(text, "+CSQ:")).None?
    ensures SignalQuality(Response(text)) == Success(0)
  {
  }

  /**
   * The scale: 0 stays 0, 31 and above give 100, it never decreases, and the
   * result is q*100/31 rounded down for 0 <= q <= 31.
   */
  lemma ScaleQualityProperties(q: int, q': int)
    ensures q <= 0 ==> ScaleQuality(q) == 0
    ensures q >= 31 ==> ScaleQuality(q) == 100
    ensures q <= q' ==> ScaleQuality(q) <= ScaleQuality(q')
    ensures 0 <= q <= 31 ==> ScaleQuality(q) * 31 <= q * 100 < (ScaleQuality(q) + 1) * 31
  {
  }

  /** A reply "+CSQ: <q>,<ber>" gives the scaled q, or 0 for q = 99. */
  lemma SignalQualityOfReply(q: int, ber: string)
    requires ber == [] || ber[0] == ','
    ensures SignalQuality(Response("+CSQ: " + IntToString(q) + ber)) == Success(if q == 99 then 0 else ScaleQuality(q))
  {
    var num := IntToString(q) + ber;
    var text := "+CSQ: " + IntToString(q) + ber;
    assert text == "+CSQ: " + num;
    IntToStringStart(q);
    assert num[0] == IntToString(q)[0];
    StripCsqTag(num);
    ScanIntToString(q, ber);
    SignalQualityOfScan(text, num, q);
  }

  lemma SignalQualityOfScan(text: string, num: string, v: int)
    requires text != [] && StripTag(text, "+CSQ:") == num && ScanInt(num) == Some(v)
    ensures SignalQuality(Response(text)) == Success(if v == 99 then 0 else ScaleQuality(v))
  {
  }

  lemma IntToStringStart(q: int)
    ensures !IsSpace(IntToString(q)[0])
  {
    if q >= 0 {
      assert IsDigit(NatToString(q)[0]);
    }
  }

  /** mm_strip_tag removes "+CSQ:" and the blank after it. */
  lemma StripCsqTag(num: string)
    requires num != [] && !IsSpace(num[0])
    ensures StripTag("+CSQ: " + num, "+CSQ:") == num
  {
    var tag := "+CSQ:";
    var text := "+CSQ: " + num;
    assert text == tag + ([' '] + num);
    assert text[..|tag|] == tag;
    assert text[|tag|..] == [' '] + num;
    SkipSpaceNone(num);
    assert ([' '] + num)[1..] == num;
  }

  // ---------------------------------------------------------------------------
  // Bands

  /** A vendor band number of +GTACT read as a ModemManager band: 1xx is LTE, 5xx and 5xxx are NR. */
  function DecodeCurrentBand(v: int): int
  {
    if 100 <= v < 200 then v - 100 + 30
    else if 500 <= v < 600 then v - 500 + 300
    else if 5000 <= v < 6000 then v - 5000 + 300
    else v
  }

  /** A ModemManager band as the vendor number set_current_bands sends, or None when it is skipped. */
  function EncodeBand(b: int): (r: Option<int>)
    ensures r.Some? ==> r.value > 0
  {
    if 0 < b < 30 then Some(b)
    else if 30 < b < 300 then Some(b - 30 + 100)
    else if 30 < b < 599 then
      var k := b - 300;
      if 0 < k < 10 then Some(k + 500) else Some(k + 5000)
    else None
  }

  /** The bands that survive being sent and read back: UMTS 1-29, LTE 31-129, NR 300-598. */
  predicate SendableBand(b: int) {
    (1 <= b <= 29) || (31 <= b <= 129) || (300 <= b <= 598)
  }

  /** The vendor numbers that survive being read and sent back. */
  predicate ReadableBand(v: int) {
    (1 <= v <= 29) || (101 <= v <= 199) || (501 <= v <= 509) || v == 5000 || (5010 <= v <= 5298)
  }

  /** Sending a band and reading it back gives the same band exactly for the sendable ones. */
  lemma EncodeThenDecode(b: int)
    ensures (EncodeBand(b).Some? && DecodeCurrentBand(EncodeBand(b).value) == b) <==> SendableBand(b)
  {
  }

  /** Reading a vendor number and sending it back gives the same number exactly for the readable ones. */
  lemma DecodeThenEncode(v: int)
    ensures EncodeBand(DecodeCurrentBand(v)) == Some(v) <==> ReadableBand(v)
  {
  }

  /** Which bands the encoder skips: 30, zero and negatives, and 599 and above. */
  lemma EncodeBandSkips(b: int)
    ensures EncodeBand(b).None? <==> b <= 0 || b == 30 || b >= 599
  {
  }

  /** The fields of a current-band reply. */
  function GtactFieldsOf(text: string): seq<string> {
    Split(StripTag(text, "+GTACT: "), ',')
  }

  /** The vendor numbers of a list of items, each decoded. */
  function DecodedBands(items: seq<string>): (r: seq<int>)
    ensures |r| == |items|
  {
    if items == [] then []
    else DecodedBands(items[..|items| - 1]) + [DecodeCurrentBand(Atoi(items[|items| - 1]))]
  }

  /** The k-th number is the k-th item decoded. */
  lemma {:induction false} DecodedBandsAt(items: seq<string>, k: nat)
    requires k < |items|
    ensures DecodedBands(items)[k] == DecodeCurrentBand(Atoi(items[k]))
    decreases |items|
  {
    if k < |items| - 1 {
      DecodedBandsAt(items[..|items| - 1], k);
    }
  }

  /** One more field appends its decoded number. */
  lemma DecodedBandsStep(parts: seq<string>, from: nat, i: nat)
    requires from <= i < |parts|
    ensures DecodedBands(parts[from..i + 1]) == DecodedBands(parts[from..i]) + [DecodeCurrentBand(Atoi(parts[i]))]
  {
    var s := parts[from..i + 1];
    assert |s| - 1 == i - from && s[|s| - 1] == parts[i];
    assert s[..|s| - 1] == parts[from..i];
  }

  /** load_current_bands_done on values: every field from the fourth on, decoded. */
  function CurrentBandsSpec(reply: AtReply): (r: Result<seq<int>, ModemError>)
    ensures r.Failure? <==> reply.CommandFailed? || |GtactFieldsOf(reply.text)| < 4
    ensures reply.CommandFailed? ==> r == Failure(AtFailed(reply.message))
    ensures r.Success? ==> |r.value| == |GtactFieldsOf(reply.text)| - 3
  {
    if reply.CommandFailed? then Failure(AtFailed(reply.message))
    else
      var parts := GtactFieldsOf(reply.text);
      if |parts| < 4 then Failure(ParseFailed(SupportedBandsParseError))
      else Success(DecodedBands(parts[3..]))
  }

  /** load_current_bands_done */
  method LoadCurrentBandsDone(reply: AtReply) returns (result: Result<seq<int>, ModemError>)
    ensures result == CurrentBandsSpec(reply)
  {
    if reply.CommandFailed? {
      return Failure(AtFailed(reply.message));
    }
    var parts := GtactFieldsOf(reply.text);
    var c := |parts|;
    if c < 4 {
      return Failure(ParseFailed(SupportedBandsParseError));
    }
    var bands: seq<int> := [];
    var i := 3;
    while i < c
      invariant 3 <= i <= c
      invariant bands == DecodedBands(parts[3..i])
    {
      DecodedBandsStep(parts, 3, i);
      var tmp := DecodeBandValue(Atoi(parts[i]));
      bands := bands + [tmp];
      i := i + 1;
    }
    SliceToEnd(parts, 3);
    return Success(bands);
  }

  /** The range rewrite load_current_bands_done applies to one vendor number. */
  method DecodeBandValue(raw: int) returns (tmp: int)
    ensures tmp == DecodeCurrentBand(raw)
  {
    tmp := raw;
    if tmp >= 100 && tmp < 200 {
      tmp := tmp - 100 + 30;
    } else if tmp >= 500 && tmp < 600 {
      tmp := tmp - 500 + 300;
    } else if tmp >= 5000 && tmp < 6000 {
      tmp := tmp - 5000 + 300;
    }
  }

  lemma SliceToEnd(s: seq<string>, from: nat)
    requires from <= |s|
    ensures s[from..|s|] == s[from..]
  {
  }

  /** g_string_erase (s, 0, 1): the first character goes; an empty string stays empty. */
  function EraseFirst(s: string): string {
    if s == [] then s else s[1..]
  }

  /** All items of a comma list but the last, as the loops bounded by g_strv_length - 1 read them. */
  function AllButLast(items: seq<string>): seq<string> {
    if items == [] then [] else items[..|items| - 1]
  }

  /** The three groups of the supported-bands reply and how an item of each is read. */
  datatype BandGroup = Umts | Lte | Nr

  function ItemBand(item: string, group: BandGroup): int {
    match group
    case Umts => Atoi(item)
    case Lte => Atoi(EraseFirst(item)) + 30
    case Nr => Atoi(EraseFirst(item)) + 300
  }

  /** The band numbers of the items of one group, in order. */
  function GroupBands(items: seq<string>, group: BandGroup): (r: seq<int>)
    ensures |r| == |items|
  {
    if items == [] then []
    else GroupBands(items[..|items| - 1], group) + [ItemBand(items[|items| - 1], group)]
  }

  /** The k-th number is the k-th item read the way its group reads it. */
  lemma {:induction false} GroupBandsAt(items: seq<string>, group: BandGroup, k: nat)
    requires k < |items|
    ensures GroupBands(items, group)[k] == ItemBand(items[k], group)
    decreases |items|
  {
    if k < |items| - 1 {
      GroupBandsAt(items[..|items| - 1], group, k);
    }
  }

  /** One more item appends its number, after whatever came before. */
  lemma GroupBandsStep(before: seq<int>, items: seq<string>, group: BandGroup, i: nat)
    requires i < |items|
    ensures before + GroupBands(items[..i + 1], group) == before + GroupBands(items[..i], group) + [ItemBand(items[i], group)]
  {
    var s := items[..i + 1];
    assert s[..i] == items[..i];
    var tail := GroupBands(items[..i], group);
    assert GroupBands(s, group) == tail + [ItemBand(items[i], group)];
  }

  /** The supported-bands reply cut into its ten groups: ")" deleted, "(" made a separator. */
  function SupportedGroups(text: string): seq<string> {
    Split(ReplaceChar(Without(StripTag(text, "+GTACT: "), ')'), '(', '|'), '|')
  }

  /**
   * load_supported_bands_done on values: UMTS from group 5 and LTE from
   * group 6, each without its last item, and NR from group 9, all items.
   */
  function SupportedBandsSpec(reply: AtReply): (r: Result<seq<int>, ModemError>)
    ensures r.Failure? <==> reply.CommandFailed? || |SupportedGroups(reply.text)| != 10
    ensures reply.CommandFailed? ==> r == Failure(AtFailed(reply.message))
    ensures r.Success? ==> var g := SupportedGroups(reply.text);
      |r.value| == |AllButLast(Split(g[5], ','))| + |AllButLast(Split(g[6], ','))| + |Split(g[9], ',')|
  {
    if reply.CommandFailed? then Failure(AtFailed(reply.message))
    else
      var parts := SupportedGroups(reply.text);
      if |parts| != 10 then Failure(ParseFailed(SupportedBandsParseError))
      else Success(GroupBands(AllButLast(Split(parts[5], ',')), Umts)
        + GroupBands(AllButLast(Split(parts[6], ',')), Lte)
        + GroupBands(Split(parts[9], ','), Nr))
  }

  /** load_supported_bands_done */
  method LoadSupportedBandsDone(reply: AtReply) returns (result: Result<seq<int>, ModemError>)
    ensures result == SupportedBandsSpec(reply)
  {
    if reply.CommandFailed? {
      return Failure(AtFailed(reply.message));
    }
    var s := Without(StripTag(reply.text, "+GTACT: "), ')');
    s := ReplaceChar(s, '(', '|');
    var parts := Split(s, '|');
    if |parts| != 10 {
      return Failure(ParseFailed(SupportedBandsParseError));
    }
    var umtsbands := Split(parts[5], ',');
    var lteband := Split(parts[6], ',');
    var nrband := Split(parts[9], ',');
    var cumts := |umtsbands| - 1;
    var clte := |lteband| - 1;
    var cnr := |nrband|;

    assert parts == SupportedGroups(reply.text);
    var bands: seq<int> := [];
    bands := AppendGroup(bands, umtsbands, cumts, Umts);
    assert umtsbands[..if cumts < 0 then 0 else cumts] == AllButLast(umtsbands);
    ghost var umts := GroupBands(AllButLast(umtsbands), Umts);
    assert bands == umts;
    bands := AppendGroup(bands, lteband, clte, Lte);
    assert lteband[..if clte < 0 then 0 else clte] == AllButLast(lteband);
    ghost var lte := GroupBands(AllButLast(lteband), Lte);
    assert bands == umts + lte;
    bands := AppendGroup(bands, nrband, cnr, Nr);
    assert nrband[..cnr] == nrband;
    assert bands == umts + lte + GroupBands(nrband, Nr);
    return Success(bands);
  }

  /**
   * One of the loops of load_supported_bands_done: the first `count` items
   * (none when `count` is negative) read the way their group is read,
   * appended in order.
   */
  method AppendGroup(bands: seq<int>, items: seq<string>, count: int, group: BandGroup) returns (r: seq<int>)
    requires count <= |items|
    ensures r == bands + GroupBands(items[..if count < 0 then 0 else count], group)
  {
    r := bands;
    var i := 0;
    while i < count
      invariant 0 <= i <= |items| && (i == 0 || i <= count)
      invariant r == bands + GroupBands(items[..i], group)
    {
      GroupBandsStep(bands, items, group, i);
      var tmp := ItemBand(items[i], group);
      r := r + [tmp];
      i := i + 1;
    }
  }

  /** The parameters of the set-bands command after the three fields copied from the RATs reply. */
  function EncodedBands(bands: seq<int>): string
  {
    if bands == [] then []
    else
      var last := bands[|bands| - 1];
      EncodedBands(bands[..|bands| - 1]) + (if EncodeBand(last).Some? then "," + IntToString(EncodeBand(last).value) else "")
  }

  /** The parameters of the set-bands command: the three RAT fields as read, then the encoded bands. */
  function GtactParameters(parts: seq<string>, bands: seq<int>): string
    requires |parts| >= 3
  {
    parts[0] + "," + parts[1] + "," + parts[2] + EncodedBands(bands)
  }

  /** The set-bands command for the fields of the RATs reply. */
  function SetBandsCommand(parts: seq<string>, bands: seq<int>): string
    requires |parts| >= 3
  {
    "AT+GTACT=" + GtactParameters(parts, bands)
  }

  /** The decimal texts of the vendor numbers the command carries. */
  function EncodedTexts(bands: seq<int>): seq<string>
  {
    if bands == [] then []
    else
      var last := bands[|bands| - 1];
      EncodedTexts(bands[..|bands| - 1]) + (if EncodeBand(last).Some? then [IntToString(EncodeBand(last).value)] else [])
  }

  /** The encoded bands are the comma-joined texts of their vendor numbers. */
  lemma {:induction false} EncodedBandsJoin(head: seq<string>, bands: seq<int>)
    requires |head| >= 1
    ensures Join(head, ',') + EncodedBands(bands) == Join(head + EncodedTexts(bands), ',')
    decreases |bands|
  {
    if bands == [] {
      assert head + [] == head;
    } else {
      var init := bands[..|bands| - 1];
      EncodedBandsJoin(head, init);
      var t := EncodedLast(bands);
      var j := Join(head, ',');
      var prev := EncodedBands(init);
      var texts := head + EncodedTexts(init);
      if EncodeBand(bands[|bands| - 1]).Some? {
        JoinSnoc(texts, ',', t);
        AppendAssoc(head, EncodedTexts(init), [t]);
        StringAssoc(j, prev, t);
      }
    }
  }

  /** Encoding one more band: its text after a comma, or nothing when the band is skipped. */
  lemma EncodedLast(bands: seq<int>) returns (t: string)
    requires bands != []
    ensures var init, last := bands[..|bands| - 1], bands[|bands| - 1];
      && (EncodeBand(last).Some? ==>
            && t == IntToString(EncodeBand(last).value)
            && EncodedBands(bands) == EncodedBands(init) + ([','] + t)
            && EncodedTexts(bands) == EncodedTexts(init) + [t])
      && (EncodeBand(last).None? ==>
            EncodedBands(bands) == EncodedBands(init) && EncodedTexts(bands) == EncodedTexts(init))
  {
    var init, last := bands[..|bands| - 1], bands[|bands| - 1];
    if EncodeBand(last).Some? {
      t := IntToString(EncodeBand(last).value);
    } else {
      t := "";
      assert EncodedBands(bands) == EncodedBands(init) + [];
      assert EncodedTexts(bands) == EncodedTexts(init) + [];
    }
  }

  lemma AppendAssoc(a: seq<string>, b: seq<string>, c: seq<string>)
    ensures a + (b + c) == (a + b) + c
  {
  }

  lemma StringAssoc(j: string, prev: string, t: string)
    ensures j + (prev + ([','] + t)) == (j + prev) + [','] + t
  {
  }

  predicate AllSendable(bands: seq<int>) {
    forall i | 0 <= i < |bands| :: SendableBand(bands[i])
  }

  /** Every band gives at most one text, and no text holds a comma. */
  lemma {:induction false} EncodedTextsPlain(bands: seq<int>)
    ensures |EncodedTexts(bands)| <= |bands|
    ensures NoneContains(EncodedTexts(bands), ',')
    decreases |bands|
  {
    if bands != [] {
      var init, last := bands[..|bands| - 1], bands[|bands| - 1];
      EncodedTextsPlain(init);
      if EncodeBand(last).Some? {
        var t := IntToString(EncodeBand(last).value);
        assert ',' !in t by {
          forall i | 0 <= i < |t| ensures t[i] != ',' {
            assert IsDigit(t[i]);
          }
        }
        assert EncodedTexts(bands) == EncodedTexts(init) + [t];
      } else {
        assert EncodedTexts(bands) == EncodedTexts(init) + [];
      }
    }
  }

  /** For sendable bands every band gives one decimal text, and decoding the texts gives the bands back. */
  lemma {:induction false} EncodedTextsDecode(bands: seq<int>)
    requires AllSendable(bands)
    ensures |EncodedTexts(bands)| == |bands|
    ensures DecodedBands(EncodedTexts(bands)) == bands
    decreases |bands|
  {
    if bands != [] {
      var init, last := bands[..|bands| - 1], bands[|bands| - 1];
      var t := EncodedTextsSnoc(bands);
      EncodedTextsDecode(init);
      var texts := EncodedTexts(init) + [t];
      assert texts[..|texts| - 1] == EncodedTexts(init);
      assert DecodedBands(texts) == init + [last];
      LastSplit(bands);
    }
  }

  lemma LastSplit(s: seq<int>)
    requires s != []
    ensures s[..|s| - 1] + [s[|s| - 1]] == s
  {
  }

  /** A sendable last band adds one text, which reads back to that band. */
  lemma EncodedTextsSnoc(bands: seq<int>) returns (t: string)
    requires bands != [] && AllSendable(bands)
    ensures AllSendable(bands[..|bands| - 1])
    ensures EncodedTexts(bands) == EncodedTexts(bands[..|bands| - 1]) + [t]
    ensures DecodeCurrentBand(Atoi(t)) == bands[|bands| - 1]
  {
    var init, last := bands[..|bands| - 1], bands[|bands| - 1];
    forall i | 0 <= i < |init| ensures SendableBand(init[i]) {
      assert init[i] == bands[i];
    }
    assert SendableBand(last);
    EncodeThenDecode(last);
    var v := EncodeBand(last).value;
    t := NatToString(v);
    AtoiNatToString(v);
  }

  /** The three RAT fields joined with commas, as the command copies them. */
  lemma JoinThree(parts: seq<string>)
    requires |parts| >= 3
    ensures Join(parts[..3], ',') == parts[0] + "," + parts[1] + "," + parts[2]
  {
    var h := parts[..3];
    assert h[1..][1..] == [parts[2]];
    assert Join(h[1..], ',') == parts[1] + [','] + parts[2];
  }

  /**
   * Setting bands and reading them back: the parameters of the set-bands
   * command, read the way load_current_bands_done reads a +GTACT reply,
   * give exactly the requested bands, in order, when every one is sendable.
   */
  lemma SetThenLoadBands(parts: seq<string>, bands: seq<int>)
    requires |parts| >= 3 && NoneContains(parts[..3], ',')
    requires parts[0] == [] || !IsSpace(parts[0][0])
    requires |bands| >= 1 && AllSendable(bands)
    ensures CurrentBandsSpec(Response("+GTACT: " + GtactParameters(parts, bands))) == Success(bands)
  {
    var t := GtactParameters(parts, bands);
    ParametersFields(parts, bands);
    assert t[0] == if parts[0] == [] then ',' else parts[0][0];
    StripGtactTag(t);
    EncodedTextsDecode(bands);
    var fields := parts[..3] + EncodedTexts(bands);
    assert GtactFieldsOf("+GTACT: " + t) == fields;
    assert fields[3..] == EncodedTexts(bands);
  }

  /** The parameters split on commas into the three RAT fields and the band texts. */
  lemma ParametersFields(parts: seq<string>, bands: seq<int>)
    requires |parts| >= 3 && NoneContains(parts[..3], ',')
    ensures Split(GtactParameters(parts, bands), ',') == parts[..3] + EncodedTexts(bands)
  {
    var head := parts[..3];
    var t := GtactParameters(parts, bands);
    JoinThree(parts);
    EncodedBandsJoin(head, bands);
    EncodedTextsPlain(bands);
    var fields := head + EncodedTexts(bands);
    assert t == Join(fields, ',');
    assert NoneContains(fields, ',') by {
      forall i | 0 <= i < |fields| ensures ',' !in fields[i] {
        if i >= 3 { assert fields[i] == EncodedTexts(bands)[i - 3]; }
      }
    }
    FieldsOfJoin(fields, ',');
    assert t != [] by { assert |t| >= |parts[0] + ","|; }
  }

  /** A reply text with no leading blank comes back whole once its tag is stripped. */
  lemma StripGtactTag(t: string)
    requires t != [] && !IsSpace(t[0])
    ensures StripTag("+GTACT: " + t, "+GTACT: ") == t
  {
    var tag := "+GTACT: ";
    assert (tag + t)[..|tag|] == tag;
    assert (tag + t)[|tag|..] == t;
    SkipSpaceNone(t);
  }

  /**
   * The two band parsers agree: an LTE item "1xy" of the supported list and
   * an NR item "5xy" or "5xyz" read to the same band as the same digits in
   * a current-band reply.
   */
  lemma SupportedMatchesCurrent(item: string, group: BandGroup)
    requires AllDigits(item)
    requires group == Lte ==> |item| == 3 && item[0] == '1'
    requires group == Nr ==> (|item| == 3 || |item| == 4) && item[0] == '5'
    requires group != Umts
    ensures ItemBand(item, group) == DecodeCurrentBand(Atoi(item))
  {
    if group == Lte {
      ItemWithLead(item, 1, 100);
    } else if |item| == 3 {
      ItemWithLead(item, 5, 100);
    } else {
      ItemWithLead(item, 5, 1000);
    }
  }

  /** An item of leading digit `d` and `scale` = 10^(length-1) is d * scale plus the rest. */
  lemma ItemWithLead(item: string, d: nat, scale: nat)
    requires AllDigits(item) && (|item| == 3 || |item| == 4)
    requires scale == if |item| == 3 then 100 else 1000
    requires DigitValue(item[0]) == d
    ensures Atoi(item) == d * scale + Atoi(EraseFirst(item))
    ensures 0 <= Atoi(EraseFirst(item)) < scale
  {
    LeadingDigit(item);
  }

  /** A three- or four-digit item is its first digit in the hundreds or thousands plus the rest. */
  lemma LeadingDigit(item: string)
    requires AllDigits(item) && 3 <= |item| <= 4
    ensures |item| == 3 ==> Atoi(item) == DigitValue(item[0]) * 100 + Atoi(EraseFirst(item)) && 0 <= Atoi(EraseFirst(item)) < 100
    ensures |item| == 4 ==> Atoi(item) == DigitValue(item[0]) * 1000 + Atoi(EraseFirst(item)) && 0 <= Atoi(EraseFirst(item)) < 1000
  {
    var rest := item[1..];
    AtoiDigits(item);
    AtoiDigits(rest);
    assert EraseFirst(item) == rest;
    if |item| == 3 {
      DigitsValueThree(item);
    } else {
      DigitsValueFour(item);
    }
  }

  lemma DigitsValueOne(d: string)
    requires |d| == 1 && AllDigits(d)
    ensures DigitsValue(d) == DigitValue(d[0]) < 10
  {
    assert IsDigit(d[0]);
    assert d[..0] == [];
  }

  lemma DigitsValueTwo(d: string)
    requires |d| == 2 && AllDigits(d)
    ensures DigitsValue(d) == DigitValue(d[0]) * 10 + DigitsValue(d[1..]) < 100
    ensures DigitsValue(d[1..]) < 10
  {
    DigitsValueOne(d[..1]);
    DigitsValueOne(d[1..]);
  }

  lemma DigitsValueThree(d: string)
    requires |d| == 3 && AllDigits(d)
    ensures DigitsValue(d) == DigitValue(d[0]) * 100 + DigitsValue(d[1..]) < 1000
    ensures DigitsValue(d[1..]) < 100
  {
    DigitsValueTwo(d[..2]);
    assert d[..2][1..] == d[1..2];
    DigitsValueTwo(d[1..]);
    assert d[1..][..1] == d[1..2];
    DigitsValueOne(d[2..]);
  }

  lemma DigitsValueFour(d: string)
    requires |d| == 4 && AllDigits(d)
    ensures DigitsValue(d) == DigitValue(d[0]) * 1000 + DigitsValue(d[1..])
    ensures DigitsValue(d[1..]) < 1000
  {
    DigitsValueThree(d[..3]);
    assert d[..3][1..] == d[1..][..2];
    DigitsValueThree(d[1..]);
    DigitsValueTwo(d[1..][..2]);
  }

  /** One more band appends its vendor number, or nothing when it is skipped. */
  lemma EncodedBandsStep(head: string, bands: seq<int>, i: nat)
    requires i < |bands|
    ensures EncodeBand(bands[i]).Some? ==>
      head + EncodedBands(bands[..i]) + ("," + IntToString(EncodeBand(bands[i]).value)) == head + EncodedBands(bands[..i + 1])
    ensures EncodeBand(bands[i]).None? ==> head + EncodedBands(bands[..i]) == head + EncodedBands(bands[..i + 1])
  {
    assert bands[..i + 1][..i] == bands[..i];
  }

  /** set_current_bands_get_current_rats: the command built from the RATs reply and the requested bands. */
  method SetCurrentBandsGetCurrentRats(reply: AtReply, bands: seq<int>) returns (result: Result<string, ModemError>)
    ensures reply.CommandFailed? ==> result == Failure(AtFailed(reply.message))
    ensures reply.Response? ==>
      var parts := GtactFieldsOf(reply.text);
      result == if |parts| < 3 then Failure(ParseFailed(RatsParseError)) else Success(SetBandsCommand(parts, bands))
  {
    if reply.CommandFailed? {
      return Failure(AtFailed(reply.message));
    }
    var parts := Split(StripTag(reply.text, "+GTACT: "), ',');
    if |parts| < 3 {
      return Failure(ParseFailed(RatsParseError));
    }
    var command := "AT+GTACT=" + parts[0] + "," + parts[1] + "," + parts[2];
    ghost var head := command;
    assert head + EncodedBands(bands) == SetBandsCommand(parts, bands);
    var j := |bands|;
    var i := 0;
    while i < j
      invariant 0 <= i <= j
      invariant command == head + EncodedBands(bands[..i])
    {
      EncodedBandsStep(head, bands, i);
      command := AppendBand(command, bands[i]);
      i := i + 1;
    }
    assert bands[..j] == bands;
    return Success(command);
  }

  /** One step of the set-bands loop: ",<vendor number>" for a band the encoder keeps, nothing otherwise. */
  method AppendBand(command: string, band: int) returns (r: string)
    ensures EncodeBand(band).Some? ==> r == command + ("," + IntToString(EncodeBand(band).value))
    ensures EncodeBand(band).None? ==> r == command
  {
    r := command;
    var b := band;
    if b > 0 && b < 30 {
      r := r + ("," + IntToString(b));
    } else if b > 30 && b < 300 {
      b := b - 30 + 100;
      r := r + ("," + IntToString(b));
    } else if b > 30 && b < 599 {
      b := b - 300;
      if b > 0 && b < 10 { b := b + 500; } else { b := b + 5000; }
      r := r + ("," + IntToString(b));
    }
  }

  /**
   * set_current_bands: AT+GTACT? for the current RATs, then the built
   * command; the first failure is returned, otherwise TRUE.
   */
  method SetCurrentBands(bands: seq<int>, ratsReply: AtReply, setReply: AtReply)
    returns (sent: seq<string>, result: Result<bool, ModemError>)
    ensures |sent| >= 1 && sent[0] == "AT+GTACT?"
    ensures |sent| == 2 <==> ratsReply.Response? && |GtactFieldsOf(ratsReply.text)| >= 3
    ensures |sent| == 2 ==> sent[1] == SetBandsCommand(GtactFieldsOf(ratsReply.text), bands)
    ensures |sent| == 1 ==> result == Failure(if ratsReply.CommandFailed? then AtFailed(ratsReply.message) else ParseFailed(RatsParseError))
    ensures |sent| == 2 ==> result == if setReply.CommandFailed? then Failure(AtFailed(setReply.message)) else Success(true)
  {
    sent := ["AT+GTACT?"];
    var command := SetCurrentBandsGetCurrentRats(ratsReply, bands);
    if command.Failure? {
      return sent, Failure(command.error);
    }
    sent := sent + [command.value];
    if setReply.CommandFailed? {
      return sent, Failure(AtFailed(setReply.message));
    }
    return sent, Success(true);
  }

  // ---------------------------------------------------------------------------
  // +CGDCONT=? profile range

  /** The range of profile identifiers the profile manager uses. */
  datatype ProfileRange = ProfileRange(minProfileId: nat, maxProfileId: nat)

  const GMaxInt := 0x7fff_ffff

  /**
   * check_format_cgdcont_test_ready: `findRange` stands for
   * mm_3gpp_parse_cgdcont_test_response with
   * mm_3gpp_pdp_context_format_list_find_range, None when either fails.
   * A range found is narrowed to 1..1, anything else gives 1..G_MAXINT-1;
   * the check itself always succeeds.
   */
  function CheckFormat(reply: AtReply, findRange: string -> Option<(nat, nat)>): (r: ProfileRange)
    ensures r.minProfileId == 1 && r.minProfileId <= r.maxProfileId
    ensures r.maxProfileId == 1 <==> reply.Response? && findRange(reply.text).Some?
    ensures r.maxProfileId != 1 ==> r.maxProfileId == GMaxInt - 1
  {
    var checked := reply.Response? && findRange(reply.text).Some?;
    if checked then ProfileRange(1, 1) else ProfileRange(1, GMaxInt - 1)
  }
}
