/** Which import application runs a message: a switch on the protocol, a special case for MSCONS, and a
    line scanner that looks for a message type in the payload. */
module RunnerResolver {
  import opened Text

  datatype ApplicationType =
    EdkIn | EdiImp | UtsImp | Gs2imp | XmlElImp | ProdatImp | Nppoload | AncitraQueue | ServiceBus2Tss

  /** The choice, or the exception that is thrown instead: an unknown protocol, or a PD01 line that is
      too short to hold a message type. */
  datatype Choice = Chosen(application: ApplicationType) | InvalidProtocol | LineTooShort

  datatype Message = Message(
    protocol: string, country: string, senderName: string, subAddress: string, productCode: string, data: string)

  datatype Settings = Settings(
    tradeHandlesInnmating: bool, tradeAvregnToEdkin: bool, tradeTimerToEdkin: bool, tradeDelforToEdkin: bool,
    tradeStatnettAddress: string, tradeSvkAddress: string,
    tradeEdiimpProductCodes: seq<string>, tradeEdkinProductCodes: seq<string>, ancitraMessageTypes: seq<string>)

  /** Texts are compared without surrounding blanks and without case; a missing text is empty. */
  function TrimmedUpperCase(s: string): string {
    if Blank(s) then "" else Upper(Trim(s))
  }

  predicate IsBreak(c: char) {
    c == '\n' || c == '\r'
  }

  /** The end of the line that starts at `pos`. */
  function LineEnd(text: string, pos: nat): (i: nat)
    requires pos <= |text|
    ensures pos <= i <= |text| && (i < |text| ==> IsBreak(text[i]))
    ensures forall j :: pos <= j < i ==> !IsBreak(text[j])
    decreases |text| - pos
  {
    if pos == |text| || IsBreak(text[pos]) then pos else LineEnd(text, pos + 1)
  }

  /** Where the next line starts: a carriage return takes a line feed behind it along. */
  function NextLine(text: string, pos: nat): (next: nat)
    requires pos < |text|
    ensures pos < next <= |text|
  {
    var i := LineEnd(text, pos);
    if i == |text| then i
    else if text[i] == '\r' && i + 1 < |text| && text[i + 1] == '\n' then i + 2
    else i + 1
  }

  /** The lines a StringReader reads from `pos` on. */
  function Lines(text: string, pos: nat): seq<string>
    requires pos <= |text|
    decreases |text| - pos
  {
    if pos == |text| then [] else [text[pos..LineEnd(text, pos)]] + Lines(text, NextLine(text, pos))
  }

  /** What stands between the lines: a carriage return, a line feed, both, or nothing behind the last. */
  predicate EndsLine(line: string, end: string, rest: string) {
    || end == "\n" || end == "\r\n"
    || (end == "\r" && !("\n" <= rest))
    || (end == "" && rest == "" && line != "")
  }

  /** `lines` and the line ends behind them are the text, and no line holds a line end. */
  ghost predicate IsSplit(text: string, lines: seq<string>, ends: seq<string>)
    decreases |lines|
  {
    if lines == [] || ends == [] then text == "" && lines == [] && ends == []
    else
      var n := |lines[0]| + |ends[0]|;
      && n <= |text| && text[..n] == lines[0] + ends[0]
      && (forall j :: 0 <= j < |lines[0]| ==> !IsBreak(lines[0][j]))
      && EndsLine(lines[0], ends[0], text[n..])
      && IsSplit(text[n..], lines[1..], ends[1..])
  }

  /** The line ends a StringReader skips. */
  function Ends(text: string, pos: nat): seq<string>
    requires pos <= |text|
    decreases |text| - pos
  {
    if pos == |text| then [] else [text[LineEnd(text, pos)..NextLine(text, pos)]] + Ends(text, NextLine(text, pos))
  }

  /** The text from `pos` on: a line, what ends it, and the rest. */
  lemma LineParts(text: string, pos: nat)
    requires pos < |text|
    ensures var i, next := LineEnd(text, pos), NextLine(text, pos);
            && pos <= i <= next && text[pos..] == text[pos..i] + text[i..next] + text[next..]
            && EndsLine(text[pos..i], text[i..next], text[next..])
  {
    var i, next := LineEnd(text, pos), NextLine(text, pos);
    if i < |text| {
      assert text[i] == text[i..next][0];
      assert text[i..next] == if next == i + 1 then [text[i]] else [text[i], text[i + 1]];
    }
  }

  /** A line in front of a text that is split. */
  lemma SplitOneMore(line: string, end: string, rest: string, lines: seq<string>, ends: seq<string>)
    requires EndsLine(line, end, rest) && IsSplit(rest, lines, ends)
    requires forall j :: 0 <= j < |line| ==> !IsBreak(line[j])
    ensures IsSplit(line + end + rest, [line] + lines, [end] + ends)
  {
    hide EndsLine, IsBreak;
    var text, n := line + end + rest, |line| + |end|;
    assert text[..n] == line + end && text[n..] == rest;
    assert ([line] + lines)[1..] == lines && ([end] + ends)[1..] == ends;
  }

  lemma {:induction false} LinesSplitText(text: string, pos: nat)
    requires pos <= |text|
    ensures IsSplit(text[pos..], Lines(text, pos), Ends(text, pos))
    decreases |text| - pos
  {
    if pos < |text| {
      var i, next := LineEnd(text, pos), NextLine(text, pos);
      LineParts(text, pos);
      LinesSplitText(text, next);
      hide IsSplit, EndsLine, IsBreak;
      SplitOneMore(text[pos..i], text[i..next], text[next..], Lines(text, next), Ends(text, next));
    }
  }

  /** Where a first line and what ends it stand in the text. */
  lemma LineInText(text: string, line: string, end: string)
    requires |line| + |end| <= |text| && text[..|line| + |end|] == line + end &&
        EndsLine(line, end, text[|line| + |end|..])
    requires forall j :: 0 <= j < |line| ==> !IsBreak(line[j])
    ensures |line| == LineEnd(text, 0) && line == text[..|line|] && end == text[|line|..|line| + |end|]
    ensures |text| > 0 && |line| + |end| == NextLine(text, 0)
  {
    assert line == text[..|line|] && end == text[|line|..|line| + |end|];
    assert forall j :: 0 <= j < |line| ==> text[j] == line[j];
    if end != "" {
      assert text[|line|] == end[0];
    }
    if |end| == 2 {
      assert text[|line| + 1] == end[1];
    }
  }

  lemma {:induction false} SplitIsUnique(
    text: string, l1: seq<string>, e1: seq<string>, l2: seq<string>, e2: seq<string>)
    requires IsSplit(text, l1, e1) && IsSplit(text, l2, e2)
    ensures l1 == l2 && e1 == e2
    decreases |l1|
  {
    hide EndsLine, IsBreak, LineEnd, NextLine;
    if l1 != [] {
      LineInText(text, l1[0], e1[0]);
    }
    if l2 != [] {
      LineInText(text, l2[0], e2[0]);
    }
    if l1 != [] && l2 != [] {
      SplitIsUnique(text[|l1[0]| + |e1[0]|..], l1[1..], e1[1..], l2[1..], e2[1..]);
      assert l1 == [l1[0]] + l1[1..] && l2 == [l2[0]] + l2[1..] && e1 == [e1[0]] + e1[1..] && e2 == [e2[0]] + e2[1..];
    }
  }

  /** The lines that are read are the only ones that split the text at its line ends. */
  lemma LinesAreTheSplit(text: string, lines: seq<string>)
    ensures lines == Lines(text, 0) <==> exists ends :: IsSplit(text, lines, ends)
  {
    LinesSplitText(text, 0);
    assert text[0..] == text;
    hide IsSplit, Lines, Ends;
    assert IsSplit(text, Lines(text, 0), Ends(text, 0));
    forall ends | IsSplit(text, lines, ends) ensures lines == Lines(text, 0) {
      SplitIsUnique(text, lines, ends, Lines(text, 0), Ends(text, 0));
    }
  }

  const HEADER := "PD01 "

  predicate IsHeader(line: string) {
    HEADER <= line
  }

  datatype Verdict = Accepted | Rejected | TooShort

  /** The verdict on the lines of a message. */
  function ScanLines(lines: seq<string>, types: seq<string>): Verdict {
    if lines == [] || lines[0] == "" then Rejected
    else if IsHeader(lines[0]) then
      if |lines[0]| < 8 then TooShort
      else if lines[0][5..8] in types then Accepted
      else Rejected
    else ScanLines(lines[1..], types)
  }

  /** `i` is the first header line and stands in front of every empty line. */
  ghost predicate IsFirstHeader(lines: seq<string>, i: nat) {
    i < |lines| && IsHeader(lines[i]) && forall j :: 0 <= j < i ==> lines[j] != "" && !IsHeader(lines[j])
  }

  /** The scanner accepts exactly when the first header line before any empty line carries a listed
      three-character type, and fails exactly when that line is shorter than eight characters. */
  lemma {:induction false} ScanSpecification(lines: seq<string>, types: seq<string>)
    ensures ScanLines(lines, types) == Accepted <==>
              exists i: nat :: IsFirstHeader(lines, i) && |lines[i]| >= 8 && lines[i][5..8] in types
    ensures ScanLines(lines, types) == TooShort <==> exists i: nat :: IsFirstHeader(lines, i) && |lines[i]| < 8
    decreases |lines|
  {
    if lines != [] && lines[0] != "" {
      if IsHeader(lines[0]) {
        assert IsFirstHeader(lines, 0);
      } else {
        var rest := lines[1..];
        ScanSpecification(rest, types);
        forall i: nat | IsFirstHeader(rest, i) ensures IsFirstHeader(lines, i + 1) && lines[i + 1] == rest[i] {
          assert forall j :: 0 < j <= i ==> lines[j] == rest[j - 1];
        }
        forall i: nat | IsFirstHeader(lines, i) ensures i > 0 && IsFirstHeader(rest, i - 1) && lines[i] == rest[i - 1] {
          assert forall j :: 0 <= j < i - 1 ==> rest[j] == lines[j + 1];
        }
      }
    }
  }

  /** The scanner as it runs, line by line. */
  method IsAncitraMessageType(messageData: string, ancitraMessageTypes: seq<string>) returns (verdict: Verdict)
    ensures verdict == ScanLines(Lines(messageData, 0), ancitraMessageTypes)
  {
    var pos := 0;
    while pos < |messageData|
      invariant pos <= |messageData|
      invariant ScanLines(Lines(messageData, 0), ancitraMessageTypes) ==
          ScanLines(Lines(messageData, pos), ancitraMessageTypes)
    {
      var line := messageData[pos..LineEnd(messageData, pos)];
      var rest := NextLine(messageData, pos);
      assert Lines(messageData, pos)[0] == line && Lines(messageData, pos)[1..] == Lines(messageData, rest);
      if line == "" {
        break;
      }
      if HEADER <= line {
        if |line| < 8 {
          return TooShort;
        }
        var messageType := line[5..8];
        if messageType in ancitraMessageTypes {
          return Accepted;
        }
        break;
      }
      pos := rest;
    }
    verdict := Rejected;
  }

  /** MSCONS messages that EDKIN imports instead of EDIIMP. */
  predicate UseSpecialCase(m: Message, s: Settings) {
    var statnett, svk := TrimmedUpperCase(s.tradeStatnettAddress), TrimmedUpperCase(s.tradeSvkAddress);
    var sender, sub := TrimmedUpperCase(m.senderName), TrimmedUpperCase(m.subAddress);
    var product := TrimmedUpperCase(m.productCode);
    var fromStatnett :=
      && statnett != "" && statnett == sender
      && forall v :: v in s.tradeEdiimpProductCodes ==> TrimmedUpperCase(v) != product;
    || (s.tradeHandlesInnmating && sub == "INNMATING")
    || (s.tradeAvregnToEdkin && fromStatnett && sub == "AVREGNING")
    || (s.tradeTimerToEdkin && fromStatnett && sub == "TIMER")
    || (s.tradeDelforToEdkin && svk != "" && svk == sender && sub == "TRANS" &&
        exists v :: v in s.tradeEdkinProductCodes && TrimmedUpperCase(v) == product)
  }

  const EDKIN_PROTOCOLS := {
    "EDIELAPERAK", "AVRKVI", "PROKVI", "APLKVI", "REQOTE", "REQOTEFREQ", "REQOTESEC", "ANMOMR", "SLSRPT", "PRIMLD",
    "EDK", "UTILTS.S08", "JSON.NPAUCTIONS", "JSON.NPAUCTION", "JSON.NPCONTRACTS", "JSON.NPCONTRACT",
    "JSON.NP_CURVE_ORDER",
    "JSON.NP_BLOCK_ORDER", "JSON.NP.AUCTION_ORDERS", "JSON.NP.AUCTION_PORTFOLIO_VOLUMES", "JSON.NP.AUCTION_PRICES",
    "JSON.NP_ERROR_MESSAGE"}
  const EDI_PROTOCOLS := {"DELFOR", "PROGNO", "MSCONS", "AVREGN", "EDI"}
  const UTILTS_PROTOCOLS := {"UTILTSAPERAK", "UTILTSERR", "UTILTS", "UTS"}
  const GS2_PROTOCOLS := {"GS2", "PVE", "LINKCOM"}
  const XMLEL_PROTOCOLS := {"EBIX", "ENTSOE", "ERRP", "PARTICIPANT_MASTER_DATA", "XMLEL"}

  /** The queue for Ancitra when the payload asks for it, `other` if not. */
  function AncitraOr(m: Message, s: Settings, other: ApplicationType): Choice {
    if s.ancitraMessageTypes == [] then Chosen(other)
    else
      match ScanLines(Lines(m.data, 0), s.ancitraMessageTypes)
      case Accepted => Chosen(AncitraQueue)
      case Rejected => Chosen(other)
      case TooShort => LineTooShort
  }

  function GetApplicationType(m: Message, s: Settings): Choice {
    var protocol := TrimmedUpperCase(m.protocol);
    if protocol in EDKIN_PROTOCOLS then AncitraOr(m, s, EdkIn)
    else if protocol in EDI_PROTOCOLS then Chosen(if UseSpecialCase(m, s) then EdkIn else EdiImp)
    else if protocol in UTILTS_PROTOCOLS then
      AncitraOr(m, s, if TrimmedUpperCase(m.country) == "NOR" then EdkIn else UtsImp)
    else if protocol in GS2_PROTOCOLS then Chosen(Gs2imp)
    else if protocol in XMLEL_PROTOCOLS then AncitraOr(m, s, XmlElImp)
    else if protocol == "PRODAT" then Chosen(ProdatImp)
    else if protocol == "NPSDV24X7" || protocol == "NPPO" then Chosen(Nppoload)
    else if protocol == "JSON.TS" then Chosen(ServiceBus2Tss)
    else InvalidProtocol
  }

  /** What the payload decides, told by its first header line: the Ancitra queue, `other`, or a failure. */
  ghost function ByPayload(m: Message, types: seq<string>, other: ApplicationType): Choice {
    var lines := Lines(m.data, 0);
    if types != [] && exists i: nat :: IsFirstHeader(lines, i) && |lines[i]| >= 8 && lines[i][5..8] in types then
      Chosen(AncitraQueue)
    else if types != [] && exists i: nat :: IsFirstHeader(lines, i) && |lines[i]| < 8 then LineTooShort
    else Chosen(other)
  }

  lemma AncitraByPayload(m: Message, s: Settings, other: ApplicationType)
    ensures AncitraOr(m, s, other) == ByPayload(m, s.ancitraMessageTypes, other)
  {
    ScanSpecification(Lines(m.data, 0), s.ancitraMessageTypes);
    hide ScanLines, Lines;
  }

  /** The choice for each protocol, in any case and with any blanks around it. */
  lemma ChoiceByProtocol(m: Message, s: Settings)
    ensures var p, c, types := TrimmedUpperCase(m.protocol), GetApplicationType(m, s), s.ancitraMessageTypes;
            && (p in {"EDIELAPERAK", "AVRKVI", "PROKVI", "APLKVI", "REQOTE", "REQOTEFREQ", "REQOTESEC", "ANMOMR",
                      "SLSRPT", "PRIMLD", "EDK", "UTILTS.S08", "JSON.NPAUCTIONS", "JSON.NPAUCTION",
                      "JSON.NPCONTRACTS", "JSON.NPCONTRACT", "JSON.NP_CURVE_ORDER", "JSON.NP_BLOCK_ORDER",
                      "JSON.NP.AUCTION_ORDERS", "JSON.NP.AUCTION_PORTFOLIO_VOLUMES", "JSON.NP.AUCTION_PRICES",
                      "JSON.NP_ERROR_MESSAGE"} ==>
                  c == ByPayload(m, types, EdkIn))
            && (p in {"DELFOR", "PROGNO", "MSCONS", "AVREGN", "EDI"} ==>
                  c == Chosen(if UseSpecialCase(m, s) then EdkIn else EdiImp))
            && (p in {"UTILTSAPERAK", "UTILTSERR", "UTILTS", "UTS"} ==>
                  c == ByPayload(m, types, if TrimmedUpperCase(m.country) == "NOR" then EdkIn else UtsImp))
            && (p in {"GS2", "PVE", "LINKCOM"} ==> c == Chosen(Gs2imp))
            && (p in {"EBIX", "ENTSOE", "ERRP", "PARTICIPANT_MASTER_DATA", "XMLEL"} ==>
                  c == ByPayload(m, types, XmlElImp))
            && (p == "PRODAT" ==> c == Chosen(ProdatImp))
            && (p in {"NPSDV24X7", "NPPO"} ==> c == Chosen(Nppoload))
            && (p == "JSON.TS" ==> c == Chosen(ServiceBus2Tss))
  {
    AncitraByPayload(m, s, EdkIn);
    AncitraByPayload(m, s, XmlElImp);
    AncitraByPayload(m, s, if TrimmedUpperCase(m.country) == "NOR" then EdkIn else UtsImp);
    hide TrimmedUpperCase, AncitraOr, ByPayload, UseSpecialCase;
  }

  /** Any other protocol is refused. */
  lemma OtherProtocolsAreInvalid(m: Message, s: Settings)
    ensures GetApplicationType(m, s) == InvalidProtocol <==>
            TrimmedUpperCase(m.protocol) !in
            {"EDIELAPERAK", "AVRKVI", "PROKVI", "APLKVI", "REQOTE", "REQOTEFREQ", "REQOTESEC", "ANMOMR", "SLSRPT",
             "PRIMLD", "EDK", "UTILTS.S08", "JSON.NPAUCTIONS", "JSON.NPAUCTION", "JSON.NPCONTRACTS",
             "JSON.NPCONTRACT", "JSON.NP_CURVE_ORDER", "JSON.NP_BLOCK_ORDER", "JSON.NP.AUCTION_ORDERS",
             "JSON.NP.AUCTION_PORTFOLIO_VOLUMES", "JSON.NP.AUCTION_PRICES", "JSON.NP_ERROR_MESSAGE", "DELFOR",
             "PROGNO", "MSCONS", "AVREGN", "EDI", "UTILTSAPERAK", "UTILTSERR", "UTILTS", "UTS", "GS2", "PVE",
             "LINKCOM", "EBIX", "ENTSOE", "ERRP", "PARTICIPANT_MASTER_DATA", "XMLEL", "PRODAT", "NPSDV24X7", "NPPO",
             "JSON.TS"}
  {
    hide TrimmedUpperCase, Lines, ScanLines, UseSpecialCase;
  }

  /** When MSCONS goes to EDKIN, told by the sub-address: each of four has its own switch and conditions, and
      no other sub-address is special. */
  lemma SpecialCaseBySubAddress(m: Message, s: Settings)
    ensures var sub, sender := TrimmedUpperCase(m.subAddress), TrimmedUpperCase(m.senderName);
            var product := TrimmedUpperCase(m.productCode);
            var statnett, svk := TrimmedUpperCase(s.tradeStatnettAddress), TrimmedUpperCase(s.tradeSvkAddress);
            var ediimp := exists v :: v in s.tradeEdiimpProductCodes && TrimmedUpperCase(v) == product;
            var edkin := exists v :: v in s.tradeEdkinProductCodes && TrimmedUpperCase(v) == product;
            && (sub == "INNMATING" ==> (UseSpecialCase(m, s) <==> s.tradeHandlesInnmating))
            && (sub == "AVREGNING" ==>
                  (UseSpecialCase(m, s) <==> s.tradeAvregnToEdkin && statnett != "" && sender == statnett && !ediimp))
            && (sub == "TIMER" ==>
                  (UseSpecialCase(m, s) <==> s.tradeTimerToEdkin && statnett != "" && sender == statnett && !ediimp))
            && (sub == "TRANS" ==>
                  (UseSpecialCase(m, s) <==> s.tradeDelforToEdkin && svk != "" && sender == svk && edkin))
            && (sub !in ["INNMATING", "AVREGNING", "TIMER", "TRANS"] ==> !UseSpecialCase(m, s))
  {
    hide TrimmedUpperCase;
  }

  /** `t` is `s` in another case with blanks around it. */
  ghost predicate Variant(s: string, t: string) {
    exists before, core, after :: Blank(before) && Blank(after) && Upper(core) == Upper(s) && t == before + core + after
  }

  lemma {:induction false} TrimBlank(s: string)
    requires Blank(s)
    ensures Trim(s) == ""
  {
    if s != "" {
      TrimBlank(s[1..]);
    }
  }

  lemma {:induction false} TrimAfter(s: string, after: string)
    requires Blank(after)
    ensures Trim(s + after) == Trim(s)
    decreases |s| + |after|
  {
    if s == "" {
      assert s + after == after;
      TrimBlank(after);
    } else if IsSpace(s[0]) {
      assert (s + after)[1..] == s[1..] + after;
      TrimAfter(s[1..], after);
    } else if after != "" {
      assert (s + after)[..|s + after| - 1] == s + after[..|after| - 1];
      TrimAfter(s, after[..|after| - 1]);
    } else {
      assert s + after == s;
    }
  }

  lemma {:induction false} TrimBefore(before: string, s: string)
    requires Blank(before)
    ensures Trim(before + s) == Trim(s)
  {
    if before == "" {
      assert before + s == s;
    } else {
      assert (before + s)[1..] == before[1..] + s;
      TrimBefore(before[1..], s);
    }
  }

  /** Capital letters and trimming do not interfere. */
  lemma {:induction false} TrimUpper(s: string)
    ensures Upper(Trim(s)) == Trim(Upper(s))
    decreases |s|
  {
    if s != "" {
      var u := Upper(s);
      assert IsSpace(u[0]) == IsSpace(s[0]) && IsSpace(u[|s| - 1]) == IsSpace(s[|s| - 1]);
      if IsSpace(s[0]) {
        assert Upper(s[1..]) == u[1..];
        TrimUpper(s[1..]);
      } else if IsSpace(s[|s| - 1]) {
        assert Upper(s[..|s| - 1]) == u[..|s| - 1];
        TrimUpper(s[..|s| - 1]);
      }
    }
  }

  lemma TrimmedIsUpperTrim(s: string)
    ensures TrimmedUpperCase(s) == Trim(Upper(s))
  {
    if Blank(s) {
      TrimBlank(s);
    }
    TrimUpper(s);
  }

  /** Trimming takes off the blanks around a text, and nothing else; then capital letters are taken. */
  lemma TrimParts(before: string, core: string, after: string)
    requires Blank(before) && Blank(after)
    requires core != "" ==> !IsSpace(core[0]) && !IsSpace(core[|core| - 1])
    ensures Trim(before + core + after) == core
    ensures TrimmedUpperCase(before + core + after) == Upper(core)
  {
    TrimAfter(before + core, after);
    TrimBefore(before, core);
    TrimmedIsUpperTrim(before + core + after);
    TrimUpper(before + core + after);
  }

  lemma VariantsLookTheSame(s: string, t: string)
    requires Variant(s, t)
    ensures TrimmedUpperCase(s) == TrimmedUpperCase(t)
  {
    var before, core, after :| Blank(before) && Blank(after) && Upper(core) == Upper(s) && t == before + core + after;
    TrimmedIsUpperTrim(s);
    TrimmedIsUpperTrim(t);
    hide Trim, TrimmedUpperCase;
    UpperOfParts(before, core, after);
    TrimAfter(Upper(before) + Upper(core), Upper(after));
    TrimBefore(Upper(before), Upper(core));
  }

  lemma UpperOfParts(before: string, core: string, after: string)
    requires Blank(before) && Blank(after)
    ensures Upper(before + core + after) == Upper(before) + Upper(core) + Upper(after)
    ensures Blank(Upper(before)) && Blank(Upper(after))
  {
  }

  /** The runner does not depend on letter case or surrounding blanks in the protocol, the country, the
      sender, the sub-address and the product code. */
  lemma CaseAndBlanksDoNotMatter(m: Message, n: Message, s: Settings)
    requires Variant(m.protocol, n.protocol) && Variant(m.country, n.country) && Variant(m.senderName, n.senderName)
    requires Variant(m.subAddress, n.subAddress) && Variant(m.productCode, n.productCode) && m.data == n.data
    ensures GetApplicationType(m, s) == GetApplicationType(n, s)
  {
    hide TrimmedUpperCase, Variant;
    VariantsLookTheSame(m.protocol, n.protocol);
    VariantsLookTheSame(m.country, n.country);
    VariantsLookTheSame(m.senderName, n.senderName);
    VariantsLookTheSame(m.subAddress, n.subAddress);
    VariantsLookTheSame(m.productCode, n.productCode);
  }

  /** The payload is looked at for no other reason than to send a message to the Ancitra queue, and a
      short header line is the only way in which it makes the choice fail. */
  lemma PayloadDecidesAncitraOnly(m: Message, data: string, s: Settings)
    ensures var a, b := GetApplicationType(m, s), GetApplicationType(m.(data := data), s);
            a == b || a == Chosen(AncitraQueue) || b == Chosen(AncitraQueue) || a == LineTooShort || b == LineTooShort
    ensures GetApplicationType(m, s) == LineTooShort ==>
              s.ancitraMessageTypes != [] && exists i: nat ::
                  IsFirstHeader(Lines(m.data, 0), i) && |Lines(m.data, 0)[i]| < 8
  {
    ScanSpecification(Lines(m.data, 0), s.ancitraMessageTypes);
    hide ScanLines, Lines, TrimmedUpperCase;
  }
}
