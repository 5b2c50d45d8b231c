# FM350-GL plugin and shared QMI location support, modelled in Dafny

This project models three C files of ModemManager:

- **`Fm350Bearer`** (`bearer.dfy`) models the Fibocom FM350-GL bearer:
  - connecting with `+CGACT=1,<cid>` and disconnecting with `+CGACT=0,<cid>`;
  - reading the addresses with `AT+CGPADDR=<cid>` (`parse_ip`);
  - reading DNS servers with `AT+CGCONTRDP`;
  - rewriting dotted-decimal IPv6 DNS addresses as colon-grouped hex (`deztohexip`).

  `IpConfig` is a class whose fields the parse steps update in place.
- **`Fm350Modem`** (`modem.dfy`) models the FM350-GL modem object:
  - the twelve supported mode combinations;
  - the `+GTACT` RAT and preferred-RAT codes, both directions;
  - `+CSQ` signal quality scaled to 0..100;
  - supported and current band lists read from `+GTACT`;
  - setting bands by re-sending the current RAT fields with the encoded bands;
  - the profile-id range check on `+CGDCONT=?`.
- **`SharedQmi`** (`shared_qmi.dfy`) models the location part of the shared QMI code:
  - the private state (enabled sources, PDS client, indication handler) is a class;
  - enabling and disabling location gathering are methods. They return the PDS requests they send, and a spec function on plain states says what they do;
  - loading the location capabilities;
  - reading and writing the SUPL server, either `ip:port` or a URL.

Helper modules:

- `Wrappers` holds `Option` and `Result`.
- `AtChannel` holds the reply of one AT command.
- `Text` holds what the C code borrows from GLib and libc: `g_strsplit`, `g_strjoinv`, `mm_strip_tag`, `atoi`, `sscanf "%d"`, and printing with `%d`, `%u` and `%02x`.

AT and QMI replies are parameters of the operations: each is the text or the message that the transport hands back. An operation that sends several commands returns the commands it sent.

## Model

| member | source | states |
|---|---|---|
| Fm350Bearer.IpConfig.constructor | plugins/fm350gl/mm-broadband-bearer-fm350gl.c:542-543 | a new IP config has unknown method, no address, no gateway, prefix 0 and no DNS |
| Fm350Bearer.CgactCommandParameters | plugins/fm350gl/mm-broadband-bearer-fm350gl.c:189 | the `+CGACT=<state>,<cid>` command reads back, through `atoi`, as exactly the state and the cid |
| Fm350Bearer.CgactCommandFields | plugins/fm350gl/mm-broadband-bearer-fm350gl.c:274 | the `+CGACT` parameters split into exactly the decimal texts of the state and the cid |
| Fm350Bearer.Dial3gpp | plugins/fm350gl/mm-broadband-bearer-fm350gl.c:210-285 | dialling sends `+CGACT=1,<cid>` and always returns the best net port; an AT failure only lands in the context's saved error |
| Fm350Bearer.Disconnect3gpp | plugins/fm350gl/mm-broadband-bearer-fm350gl.c:152-206 | disconnecting sends `+CGACT=0,<cid>` and reports success whatever the reply |
| Fm350Bearer.DezToHexIp | plugins/fm350gl/mm-broadband-bearer-fm350gl.c:288-311 | the loop builds `HexColon` of the dot-separated parts: every part as `%02x` of `atoi`, a ':' before every even index except the first |
| Fm350Bearer.AppendHex | plugins/fm350gl/mm-broadband-bearer-fm350gl.c:297-309 | one loop step appends the separator for index i, then the hex text |
| Fm350Bearer.HexColonLayout | plugins/fm350gl/mm-broadband-bearer-fm350gl.c:288-311 | for byte-valued parts, the output has length 2n + (n-1)/2; part i sits at offset 2i + i/2; colons are exactly at positions 4 mod 5 |
| Fm350Bearer.HexColonEdges | plugins/fm350gl/mm-broadband-bearer-fm350gl.c:288-311 | the output is empty iff the input is empty, and it never starts or ends with ':' |
| Fm350Bearer.DezToHexIpFour | plugins/fm350gl/mm-broadband-bearer-fm350gl.c:288-311 | four decimal bytes a.b.c.d become `aabb:ccdd` in two-digit hex |
| Fm350Bearer.DezToHexIpExample | plugins/fm350gl/mm-broadband-bearer-fm350gl.c:288-311 | the text "32.1.13.184" is written as `2001:0db8` |
| Fm350Bearer.ParseIp | plugins/fm350gl/mm-broadband-bearer-fm350gl.c:314-399 | `parse_ip` updates the two IP config objects in place exactly as `ParseIpSpec` says, and returns its verdict and error |
| Fm350Bearer.ParseIpFailure | plugins/fm350gl/mm-broadband-bearer-fm350gl.c:335-338 | parse_ip fails iff the reply is missing or lacks the `+CGPADDR` prefix; it then reports "Missing +CGPADDR prefix" and changes neither config |
| Fm350Bearer.ParseIpWrongFieldCount | plugins/fm350gl/mm-broadband-bearer-fm350gl.c:348 | a `+CGPADDR` reply without exactly three fields sets the "Couldn't match" error, still returns TRUE, and changes neither config |
| Fm350Bearer.ParseIpAddresses | plugins/fm350gl/mm-broadband-bearer-fm350gl.c:340-399 | with three fields, IPv4 is static iff one of the two addresses has 2 to 4 dot parts (the second address wins), with prefix 32 and the address as gateway; otherwise its method is unknown. IPv6 becomes DHCP iff an address has more than 5 dot parts |
| Fm350Bearer.ParseIpExample | plugins/fm350gl/mm-broadband-bearer-fm350gl.c:314-399 | a reply with an IPv4 and an IPv6 address gives a static 10.0.0.7/32 and DHCP IPv6 |
| Fm350Bearer.DnsOutcome | plugins/fm350gl/mm-broadband-bearer-fm350gl.c:450-528 | the DNS step fails iff the reply is missing, lacks `+CGCONTRDP` or has fewer than 30 fields. Otherwise IPv4 DNS is fields 5 and 6, IPv6 DNS is fields 28 and 29 converted to hex, and nothing else changes |
| Fm350Bearer.IpConfigDnsGwReady | plugins/fm350gl/mm-broadband-bearer-fm350gl.c:450-528 | the method sets the config objects to what `DnsSpec` says; on failure it returns the error and leaves the configs as they were |
| Fm350Bearer.GetIpConfig3gpp | plugins/fm350gl/mm-broadband-bearer-fm350gl.c:532-618 | the chain sends `AT+CGPADDR=<cid>` and then the DNS query; it returns fresh configs holding the result of both steps, or the DNS step's error |
| Fm350Bearer.ConnectedNeedsFullDnsReply | plugins/fm350gl/mm-broadband-bearer-fm350gl.c:471-484 | getting the IP config succeeds only with a `+CGCONTRDP` DNS reply of at least 30 fields, and such a reply with fewer fields makes it fail |
| Fm350Bearer.MalformedAddressReplyNotFatal | plugins/fm350gl/mm-broadband-bearer-fm350gl.c:545-575 | a `+CGPADDR` reply with the wrong field count still goes on to the DNS query, starting from fresh configs |
| Fm350Modem.SupportedModesExactly | src/plugins/fm350gl/mm-broadband-modem-fm350gl.c:204-254 | the supported list holds exactly the non-empty subsets of {3G, 4G, 5G}: a single radio with no preferred mode, and several radios with one of them preferred. No combination is listed twice |
| Fm350Modem.SupportedModes | src/plugins/fm350gl/mm-broadband-modem-fm350gl.c:204-254 | the list has twelve entries |
| Fm350Modem.AllowedOfRat | src/plugins/fm350gl/mm-broadband-modem-fm350gl.c:256-305 | a RAT code read back is always a non-empty subset of {3G, 4G, 5G}, with all three as the default |
| Fm350Modem.PreferredOfCode | src/plugins/fm350gl/mm-broadband-modem-fm350gl.c:256-305 | a preferred code read back is none or a single RAT |
| Fm350Modem.LoadCurrentModes | src/plugins/fm350gl/mm-broadband-modem-fm350gl.c:256-305 | the modes read back always allow a non-empty subset of {3G, 4G, 5G} and prefer at most one RAT |
| Fm350Modem.LoadCurrentModesDefault | src/plugins/fm350gl/mm-broadband-modem-fm350gl.c:256-305 | a failed or short `+GTACT` reply gives all three RATs and no preferred RAT |
| Fm350Modem.GtactModesDecode | src/plugins/fm350gl/mm-broadband-modem-fm350gl.c:256-305 | a `+GTACT: <rat>,<pref>` reply decodes field by field |
| Fm350Modem.RatCode | src/plugins/fm350gl/mm-broadband-modem-fm350gl.c:323-346 | the RAT code sent is one of 1, 2, 4, 14, 16, 17 and 20 |
| Fm350Modem.PrefCode | src/plugins/fm350gl/mm-broadband-modem-fm350gl.c:323-346 | the preferred code sent is one of 0, 2, 3 and 6 |
| Fm350Modem.RatCodeDefault | src/plugins/fm350gl/mm-broadband-modem-fm350gl.c:323-346 | code 20 is sent iff the allowed set is none of the six explicit cases, so every unknown set falls back to 20 |
| Fm350Modem.RatCodeRoundTrip | src/plugins/fm350gl/mm-broadband-modem-fm350gl.c:256-346 | encoding then decoding a non-empty RAT set gives it back; decoding then encoding a valid code gives it back |
| Fm350Modem.PrefCodeRoundTrip | src/plugins/fm350gl/mm-broadband-modem-fm350gl.c:256-346 | the same round trips for single preferred RATs and codes 2, 3 and 6 |
| Fm350Modem.SetThenLoadModes | src/plugins/fm350gl/mm-broadband-modem-fm350gl.c:323-346 | setting any supported combination and reading the modem's `+GTACT` reply back gives the same combination |
| Fm350Modem.SetModesCommandFields | src/plugins/fm350gl/mm-broadband-modem-fm350gl.c:323-346 | the command is `+GTACT=<rat>` when the preference code is 0, and `+GTACT=<rat>,<pref>` otherwise |
| Fm350Modem.SetModesCommandThenLoad | src/plugins/fm350gl/mm-broadband-modem-fm350gl.c:256-346 | the fields of the command sent for a supported combination, reported back as `+GTACT: <rat>,<pref>` (a missing preference as 0), decode to that combination |
| Fm350Modem.SetCurrentModes | src/plugins/fm350gl/mm-broadband-modem-fm350gl.c:323-351 | setting modes sends exactly that command and always reports success |
| Fm350Modem.LoadThenSetModes | src/plugins/fm350gl/mm-broadband-modem-fm350gl.c:256-305 | reading valid codes and encoding the result gives the same codes |
| Fm350Modem.ScaleQuality | src/plugins/fm350gl/mm-broadband-modem-fm350gl.c:380-385 | the scaled quality is a percentage |
| Fm350Modem.SignalQuality | src/plugins/fm350gl/mm-broadband-modem-fm350gl.c:360-390 | a failed command returns its error; otherwise the quality is a percentage, with no error |
| Fm350Modem.ScaleQualityProperties | src/plugins/fm350gl/mm-broadband-modem-fm350gl.c:380-385 | scaling clamps at 0 and 31, is monotone, and is the floor of q*100/31 |
| Fm350Modem.SignalQualityOfReply | src/plugins/fm350gl/mm-broadband-modem-fm350gl.c:360-390 | `+CSQ: <q>,<ber>` gives quality 0 for q = 99, otherwise the scaled q, with no error |
| Fm350Modem.SignalQualityNoNumber | src/plugins/fm350gl/mm-broadband-modem-fm350gl.c:366-388 | an empty reply, or one with no number after `+CSQ:`, gives quality 0 with no error |
| Fm350Modem.EncodeBand | src/plugins/fm350gl/mm-broadband-modem-fm350gl.c:589-665 | a band that is sent is a positive code |
| Fm350Modem.EncodeThenDecode | src/plugins/fm350gl/mm-broadband-modem-fm350gl.c:501-665 | encoding a band and decoding it back gives the band iff the band is sendable |
| Fm350Modem.DecodeThenEncode | src/plugins/fm350gl/mm-broadband-modem-fm350gl.c:501-665 | decoding a code and encoding it back gives the code iff it is a readable band code |
| Fm350Modem.EncodeBandSkips | src/plugins/fm350gl/mm-broadband-modem-fm350gl.c:589-665 | a band is skipped iff it is at most 0, exactly 30, or at least 599 |
| Fm350Modem.DecodedBands | src/plugins/fm350gl/mm-broadband-modem-fm350gl.c:501-550 | one band per field |
| Fm350Modem.DecodedBandsAt | src/plugins/fm350gl/mm-broadband-modem-fm350gl.c:501-550 | field k decodes to `DecodeCurrentBand(atoi(field k))` |
| Fm350Modem.LoadCurrentBandsDone | src/plugins/fm350gl/mm-broadband-modem-fm350gl.c:501-550 | the loop returns the bands `CurrentBandsSpec` gives: the decoded fields after the first three, or the AT error |
| Fm350Modem.CurrentBandsSpec | src/plugins/fm350gl/mm-broadband-modem-fm350gl.c:501-550 | the current bands fail iff the command failed or the reply has fewer than four fields; otherwise there is one band per field after the third |
| Fm350Modem.DecodeBandValue | src/plugins/fm350gl/mm-broadband-modem-fm350gl.c:538-545 | the if-chain maps a raw value to its band |
| Fm350Modem.GroupBands | src/plugins/fm350gl/mm-broadband-modem-fm350gl.c:399-476 | one band per item of a group |
| Fm350Modem.GroupBandsAt | src/plugins/fm350gl/mm-broadband-modem-fm350gl.c:399-476 | item k of a group gives `ItemBand(item k)` |
| Fm350Modem.LoadSupportedBandsDone | src/plugins/fm350gl/mm-broadband-modem-fm350gl.c:399-476 | the three loops return the bands `SupportedBandsSpec` gives, or the AT error |
| Fm350Modem.SupportedBandsSpec | src/plugins/fm350gl/mm-broadband-modem-fm350gl.c:399-476 | the supported bands fail iff the command failed or the reply does not have exactly ten groups. Otherwise the list has one band per item of the UMTS and LTE groups (last item dropped) and of the NR group |
| Fm350Modem.AppendGroup | src/plugins/fm350gl/mm-broadband-modem-fm350gl.c:453-470 | one of the three loops appends the bands of the first `count` items of its group |
| Fm350Modem.SupportedMatchesCurrent | src/plugins/fm350gl/mm-broadband-modem-fm350gl.c:399-550 | for LTE and NR items, the supported-band arithmetic gives the same band as the current-band decoder |
| Fm350Modem.EncodedBandsJoin | src/plugins/fm350gl/mm-broadband-modem-fm350gl.c:589-665 | appending `,<code>` for each band equals joining the encoded texts with ',' |
| Fm350Modem.EncodedTextsPlain | src/plugins/fm350gl/mm-broadband-modem-fm350gl.c:589-665 | at most one field per band, and no field holds ',' |
| Fm350Modem.EncodedTextsDecode | src/plugins/fm350gl/mm-broadband-modem-fm350gl.c:501-665 | sendable bands give one field each, and those fields decode back to the bands |
| Fm350Modem.ParametersFields | src/plugins/fm350gl/mm-broadband-modem-fm350gl.c:589-665 | the `+GTACT=` parameters split into the three RAT fields followed by the band codes |
| Fm350Modem.SetThenLoadBands | src/plugins/fm350gl/mm-broadband-modem-fm350gl.c:501-665 | after setting sendable bands, reading the same parameters back as a `+GTACT:` reply gives the bands |
| Fm350Modem.SetCurrentBandsGetCurrentRats | src/plugins/fm350gl/mm-broadband-modem-fm350gl.c:589-665 | an AT failure is passed on; fewer than three fields gives "Failed to parse Rats response"; otherwise the command is the three fields followed by the encoded bands |
| Fm350Modem.SetCurrentBands | src/plugins/fm350gl/mm-broadband-modem-fm350gl.c:575-687 | `AT+GTACT?` is always sent. The set command is sent iff that reply has at least three fields, and then the result is the set reply's. Otherwise the result is the AT error, or "Failed to parse Rats response" |
| Fm350Modem.CheckFormat | src/plugins/fm350gl/mm-broadband-modem-fm350gl.c:748-792 | the minimum profile id is 1; the maximum is 1 iff the `+CGDCONT=?` reply gives a range, otherwise G_MAXINT-1 |
| SharedQmi.ReplyError | src/mm-shared-qmi.c:337-387 | a step passes iff the reply arrived with no error, or with "no effect" where that is tolerated |
| SharedQmi.LocationPrivate.constructor | src/mm-shared-qmi.c:38-44 | a new private state has no sources enabled, no PDS client and no handler |
| SharedQmi.LocationPrivate.EnableLocationGathering | src/mm-shared-qmi.c:639-1002 | enabling updates the private state and sends the requests `EnableSpec` gives, and keeps the state invariant |
| SharedQmi.LocationPrivate.DisableLocationGathering | src/mm-shared-qmi.c:337-587 | disabling updates the private state and sends the requests `DisableSpec` gives, and keeps the state invariant |
| SharedQmi.EnableKeepsInvariant | src/mm-shared-qmi.c:889-1002 | enabling keeps the invariant: the PDS client is held iff a GPS source is enabled |
| SharedQmi.DisableKeepsInvariant | src/mm-shared-qmi.c:502-587 | disabling keeps the same invariant |
| SharedQmi.FailureChangesNothing | src/mm-shared-qmi.c:889-1002 | a failed enable or disable leaves the state unchanged |
| SharedQmi.OtherSourcesIgnored | src/mm-shared-qmi.c:502-1002 | sources that QMI does not handle (after the parent's step) send nothing and change nothing |
| SharedQmi.SuccessChangesOnlySource | src/mm-shared-qmi.c:889-1002 | a successful enable adds exactly the source; a successful disable removes exactly the source |
| SharedQmi.EngineStartsOnlyWhenIdle | src/mm-shared-qmi.c:639-973 | enabling a GPS source sends requests iff no GPS source was enabled. The requests are service state on, then auto-tracking on, then event report on, each step only after the previous one succeeded; success stores the client and the handler |
| SharedQmi.EngineStopsOnlyWhenLast | src/mm-shared-qmi.c:337-587 | disabling a GPS source sends "service state off" iff no GPS source is left; then the client is dropped iff no GPS source is left |
| SharedQmi.AgpsSessionRules | src/mm-shared-qmi.c:390-500 | A-GPS reads the default tracking session, and writes it back only when its operating mode differs from the target. A failure changes nothing; success toggles A-GPS in the enabled set |
| SharedQmi.AgpsTargets | src/mm-shared-qmi.c:777-1002 | enabling A-GPS targets MS-assisted mode; disabling it targets standalone mode |
| SharedQmi.DisableWithoutClientFails | src/mm-shared-qmi.c:502-587 | disabling a QMI source with no PDS client fails with "missing QMI PDS client" and changes nothing |
| SharedQmi.NmeaThenRawScenario | src/mm-shared-qmi.c:639-1002 | enabling NMEA starts the engine with three requests; adding RAW sends nothing; disabling NMEA keeps the engine and the client |
| SharedQmi.EnableThenDisableRestores | src/mm-shared-qmi.c:337-1002 | enabling one GPS source on an idle engine and disabling it restores the original state, stopping the engine |
| SharedQmi.LoadCapabilities | src/mm-shared-qmi.c:1023-1072 | a parent failure is passed on; otherwise the parent's sources are kept. With a PDS client exactly the QMI sources the parent lacks are added; without one the parent's result comes back unchanged |
| SharedQmi.InetPton | src/mm-shared-qmi.c:114-142 | a parsed address has four octets below 256 |
| SharedQmi.ParseAsIpPort | src/mm-shared-qmi.c:114-142 | a parsed `ip:port` has a valid address and a port in 1..65535 |
| SharedQmi.IpPortRoundTrip | src/mm-shared-qmi.c:114-142 | formatting any valid address and port and parsing it back gives them back |
| SharedQmi.InetPtonOfNtop | src/mm-shared-qmi.c:114-142 | `inet_pton` inverts `inet_ntop` |
| SharedQmi.IpTextCanonical | src/mm-shared-qmi.c:114-142 | an address that parses is already in the canonical form `inet_ntop` writes |
| SharedQmi.PreferredNetworkMode | src/mm-shared-qmi.c:178-183 | UMTS for a 3GPP modem, CDMA for a CDMA-only modem, no mode otherwise |
| SharedQmi.SetSuplServer | src/mm-shared-qmi.c:159-200 | without a PDS client its error is returned. Otherwise the request goes on that client and carries the preferred network mode. It carries an address and port iff the text parses as `ip:port`, and otherwise the text converted to UTF-16 |
| SharedQmi.SetSuplServerDone | src/mm-shared-qmi.c:89-112 | setting succeeds iff the reply has no error; a transport failure gets the "QMI operation failed: " prefix and a protocol error does not |
| SharedQmi.LoadSuplServer | src/mm-shared-qmi.c:213-280 | loading succeeds iff the reply carries a config; transport failures are prefixed; a non-zero address and port is written as `ip:port` |
| SharedQmi.LoadSuplServerRequest | src/mm-shared-qmi.c:283-311 | without a PDS client its error is returned; otherwise the request goes on that client with the preferred network mode |
| SharedQmi.SuplRequestsAgree | src/mm-shared-qmi.c:159-311 | setting and loading the SUPL server fail or go ahead together, on the same client and in the same network mode |
| SharedQmi.SetThenLoadSupl | src/mm-shared-qmi.c:159-280 | setting a canonical `ip:port` and loading the stored address gives the same text back, except that 0.0.0.0 reads back as "" |

## Left out

- I/O, GTask callbacks and the AT and QMI transports are not modelled. Each reply is a parameter, and the commands and requests sent are results.
- Timeouts, cancellation, reference counts and freeing of objects, and concurrent operations in flight are not modelled.
- The parent interface calls, the parent's enable of location and the parent's capability loading, are parameters: their error or result is passed in. Disabling location never calls the parent, so `DisableSpec` and `DisableLocationGathering` take no parent input.
- SharedQmi.EnableSpec, SharedQmi.DisableSpec and the methods that follow them require `HandledSource(source)` on the paths that reach the source dispatch. This excludes the two `g_assert_not_reached ()` aborts (src/mm-shared-qmi.c:586 for disable, :972 for enable), which a request for a source the QMI code does not handle would reach. Each single source bit meets `HandledSource`.
- `mm_shared_qmi_ensure_client` and `mm_shared_qmi_peek_client` are not modelled. They become a parameter: the PDS client, or the error they report.
- `location_event_report_indication_cb` and the NMEA trace forwarding are not modelled: they report traces and do not change the state modelled here.
- `mm_strip_tag` and `mm_get_uint_from_str` come from `mm-modem-helpers.c`. That file is not part of this model, so both are written out in `Text` and `SharedQmi` from their documented behaviour.
- `atoi` is modelled on unbounded integers. Overflow is undefined behaviour in C and is not modelled; `%02x` prints the value modulo 2^32.
- Fm350Modem.CheckFormat: the search for the profile-id range in the `+CGDCONT=?` reply (`mm_3gpp_parse_cgdcont_test_response`) is a parameter, `findRange`.
- SharedQmi.SetSuplServer: `g_convert` to UTF-16BE is the parameter `toUtf16`; its failure (a NULL URL) is not modelled.
- SharedQmi.LoadSuplServer: the contract does not state the URL path, which goes through `g_convert` (the parameter `fromUtf16`); only the body does. The `inet_ntop` failure branch cannot happen, because the buffer holds every IPv4 text, so it is left out.
- Fm350Modem.AppendGroup: the three band loops of `load_supported_bands_done` become one helper method, called once per group.
- Fm350Modem.DecodeBandValue: the if-chain inside the loop of `load_current_bands_done` is a helper method.
- The module registration, class init and `enabling_modem_init` (`ATZ0`) are not modelled, because they are wiring and set no state modelled here.

Where the code and its documented intent differ, the model follows the code:

- Setting modes never rejects an unsupported allowed set: any unknown set is sent as RAT code 20.
- Errors from `+CGACT` on dial and disconnect are logged and swallowed.
- A `+CGPADDR` reply with the wrong field count sets an error but returns TRUE, so the chain continues.
- Disabling A-GPS needs a PDS client, which only a running GPS engine holds.
- Disabling a GPS source while the engine is idle fails with "missing QMI PDS client".
