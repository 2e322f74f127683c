/** Input validation for a campaign analysis request: a fixed sequence of
    checks where the first failing one decides the message, plus the
    stand-alone date-range, API-key and record-limit checks.

    Parsing a date with the "%Y-%m-%d" format is a parameter `parse`, a
    function that gives the day number of a well-formed date and `None`
    otherwise; `validate_date_format` is whether it succeeds.
 */
module Validation {
  import opened Wrappers
  import opened Strings

  const MinRecords := 1
  const MaxRecords := 1000
  const CampaignIdMin := 1

  const NoUsernamePassword := "❌ Please provide database username and password"
  const NoCampaignId := "❌ Please provide a campaign ID"
  const NoDates := "❌ Please provide both from and to dates"
  const NoTables := "❌ Please select at least one table to query"
  const NoApiKey := "❌ Please provide an OpenAI API key"
  const InvalidCampaignId := "❌ Campaign ID must be a number"
  const InvalidDateFormat := "❌ Dates must be in YYYY-MM-DD format"
  const InvalidDateRange := "❌ From Date must be before To Date"

  /** `datetime.strptime(s, "%Y-%m-%d")` as a day number, or `None`. */
  type DateParser = string -> Option<int>

  // ---------------------------------------------------------------------
  // Python's int() on a string

  /** The ASCII characters Python treats as whitespace around a number. */
  predicate IsSpace(c: char) {
    c == ' ' || '\t' <= c <= '\r' || '\U{1C}' <= c <= '\U{1F}'
  }

  function TrimStart(s: string): (r: string)
    ensures |r| <= |s| && r == s[|s| - |r|..]
    ensures |r| > 0 ==> !IsSpace(r[0])
    ensures forall i :: 0 <= i < |s| - |r| ==> IsSpace(s[i])
    decreases |s|
  {
    if |s| > 0 && IsSpace(s[0]) then TrimStart(s[1..]) else s
  }

  function TrimEnd(s: string): (r: string)
    ensures |r| <= |s| && r == s[..|r|]
    ensures |r| > 0 ==> !IsSpace(r[|r| - 1])
    ensures forall i :: |r| <= i < |s| ==> IsSpace(s[i])
    decreases |s|
  {
    if |s| > 0 && IsSpace(s[|s| - 1]) then TrimEnd(s[..|s| - 1]) else s
  }

  /** `s.strip()`. */
  function Strip(s: string): string {
    TrimEnd(TrimStart(s))
  }

  /** Decimal digits, where single underscores may separate two digits. */
  predicate DigitGroups(s: string) {
    && |s| > 0 && IsDigit(s[0]) && IsDigit(s[|s| - 1])
    && (forall i :: 0 <= i < |s| ==> IsDigit(s[i]) || s[i] == '_')
    && (forall i :: 0 <= i < |s| - 1 && s[i] == '_' ==> IsDigit(s[i + 1]))
  }

  function DropUnderscores(s: string): string
    decreases |s|
  {
    if |s| == 0 then "" else (if s[0] == '_' then "" else [s[0]]) + DropUnderscores(s[1..])
  }

  /** Python's default cap on the number of digits `int()` reads from, and
      `str()` writes to, a decimal string. */
  const IntMaxStrDigits := 4300

  /** Digit groups with at most `IntMaxStrDigits` digits. */
  predicate Numeral(s: string) {
    DigitGroups(s) && |DropUnderscores(s)| <= IntMaxStrDigits
  }

  /** `int(s)`: surrounding whitespace, an optional sign, then digit groups
      of at most 4300 digits; `None` where Python raises ValueError. */
  function PyInt(s: string): (r: Option<int>)
    ensures r.Some? ==> |Strip(s)| > 0
  {
    var t := Strip(s);
    if |t| > 0 && (t[0] == '+' || t[0] == '-') then
      if Numeral(t[1..]) then
        var n: int := ParseNat(DropUnderscores(t[1..]));
        Some(if t[0] == '-' then -n else n)
      else None
    else if Numeral(t) then Some(ParseNat(DropUnderscores(t)))
    else None
  }

  /** A plain run of more than 4300 digits is refused, however well formed. */
  lemma PyIntDigitLimit(s: string)
    requires |s| > IntMaxStrDigits && forall i :: 0 <= i < |s| ==> IsDigit(s[i])
    ensures PyInt(s) == None
  {
    DigitsParse(s);
    assert !IsSpace(s[0]) && !IsSpace(s[|s| - 1]);
    assert TrimStart(s) == s;
    assert TrimEnd(s) == s;
    assert !Numeral(s);
    assert s[0] != '+' && s[0] != '-';
  }

  lemma {:induction false} DropUnderscoresOfDigits(s: string)
    requires forall i :: 0 <= i < |s| ==> IsDigit(s[i])
    ensures DropUnderscores(s) == s
    decreases |s|
  {
    if |s| > 0 {
      DropUnderscoresOfDigits(s[1..]);
      assert s == [s[0]] + s[1..];
    }
  }

  lemma DigitsParse(s: string)
    requires |s| > 0 && forall i :: 0 <= i < |s| ==> IsDigit(s[i])
    ensures DigitGroups(s) && DropUnderscores(s) == s
  {
    DropUnderscoresOfDigits(s);
  }

  /** Whitespace around text with non-blank ends is all `strip` removes. */
  lemma StripSurrounded(w1: string, t: string, w2: string)
    requires forall i :: 0 <= i < |w1| ==> IsSpace(w1[i])
    requires forall i :: 0 <= i < |w2| ==> IsSpace(w2[i])
    requires |t| > 0 && !IsSpace(t[0]) && !IsSpace(t[|t| - 1])
    ensures Strip(w1 + t + w2) == t
  {
    var s := w1 + t + w2;
    TrimStartDrops(w1, t + w2);
    assert s == w1 + (t + w2);
    TrimEndDrops(t, w2);
  }

  lemma {:induction false} TrimStartDrops(w: string, u: string)
    requires forall i :: 0 <= i < |w| ==> IsSpace(w[i])
    requires |u| > 0 && !IsSpace(u[0])
    ensures TrimStart(w + u) == u
    decreases |w|
  {
    if |w| > 0 {
      assert (w + u)[1..] == w[1..] + u;
      TrimStartDrops(w[1..], u);
    } else {
      assert w + u == u;
    }
  }

  lemma {:induction false} TrimEndDrops(u: string, w: string)
    requires forall i :: 0 <= i < |w| ==> IsSpace(w[i])
    requires |u| > 0 && !IsSpace(u[|u| - 1])
    ensures TrimEnd(u + w) == u
    decreases |w|
  {
    if |w| > 0 {
      assert (u + w)[..|u + w| - 1] == u + w[..|w| - 1];
      TrimEndDrops(u, w[..|w| - 1]);
    } else {
      assert u + w == u;
    }
  }

  /** `int(str(n)) == n`, also with whitespace around the number, for every
      `n` that `str` renders (no more than 4300 digits). */
  lemma PyIntOfRendered(n: int, w1: string, w2: string)
    requires |NatToString(if n < 0 then -n else n)| <= IntMaxStrDigits
    requires forall i :: 0 <= i < |w1| ==> IsSpace(w1[i])
    requires forall i :: 0 <= i < |w2| ==> IsSpace(w2[i])
    ensures PyInt(w1 + IntToString(n) + w2) == Some(n)
  {
    var s := IntToString(n);
    RenderedEnds(n);
    StripSurrounded(w1, s, w2);
    PyIntOfStripped(w1 + s + w2, n);
  }

  /** A rendered integer starts and ends with a non-blank character. */
  lemma RenderedEnds(n: int)
    ensures |IntToString(n)| > 0
    ensures !IsSpace(IntToString(n)[0]) && !IsSpace(IntToString(n)[|IntToString(n)| - 1])
  {
  }

  /** Text that strips to a rendered integer reads back as that integer. */
  lemma PyIntOfStripped(s: string, n: int)
    requires |NatToString(if n < 0 then -n else n)| <= IntMaxStrDigits
    requires Strip(s) == IntToString(n)
    ensures PyInt(s) == Some(n)
  {
    var m: nat := if n < 0 then -n else n;
    var digits := NatToString(m);
    DigitsParse(digits);
    ParseNatToString(m);
    var t := Strip(s);
    if n < 0 {
      assert t[1..] == digits;
    } else {
      assert t == digits && !(t[0] == '+' || t[0] == '-');
    }
  }

  // ---------------------------------------------------------------------
  // The stand-alone checks

  predicate ValidateDateFormat(date: string, parse: DateParser) {
    parse(date).Some?
  }

  /** Both dates parse and the first is not after the second. */
  function ValidateDateRange(fromDate: string, toDate: string, parse: DateParser): (r: bool)
    ensures r ==> ValidateDateFormat(fromDate, parse) && ValidateDateFormat(toDate, parse)
  {
    match (parse(fromDate), parse(toDate))
    case (Some(a), Some(b)) => a <= b
    case _ => false
  }

  /** A date range check accepts a well-formed date against itself, and of
      two well-formed dates on different days it accepts exactly one order. */
  lemma DateRangeOrder(d: string, e: string, parse: DateParser)
    ensures ValidateDateRange(d, d, parse) <==> ValidateDateFormat(d, parse)
    ensures ValidateDateFormat(d, parse) && ValidateDateFormat(e, parse) ==>
      (ValidateDateRange(d, e, parse) <==> parse(d).value <= parse(e).value)
    ensures ValidateDateFormat(d, parse) && ValidateDateFormat(e, parse) && parse(d) != parse(e) ==>
      (ValidateDateRange(d, e, parse) <==> !ValidateDateRange(e, d, parse))
  {
  }

  /** An OpenAI key looks like "sk-" followed by more than seventeen
      further characters. */
  function ValidateOpenaiApiKey(apiKey: string): (r: bool)
    ensures r ==> |apiKey| > 20 && apiKey[..3] == "sk-"
    ensures !r ==> |apiKey| <= 20 || !StartsWith(apiKey, "sk-")
  {
    apiKey != "" && StartsWith(apiKey, "sk-") && |apiKey| > 20
  }

  function ValidateRecordsLimit(maxRecords: int): (r: bool)
    ensures r ==> 0 < maxRecords
    ensures r <==> maxRecords in Limits()
  {
    if MinRecords <= maxRecords <= MaxRecords then
      assert Limits()[maxRecords - MinRecords] == maxRecords;
      true
    else false
  }

  /** The accepted limits, listed. */
  function Limits(): (r: seq<int>)
    ensures |r| == MaxRecords - MinRecords + 1
    ensures forall i :: 0 <= i < |r| ==> r[i] == MinRecords + i
  {
    seq(MaxRecords - MinRecords + 1, i => MinRecords + i)
  }

  // ---------------------------------------------------------------------
  // validate_campaign_inputs

  /** `(is_valid, error_message, campaign_id_int)`. */
  datatype Verdict = Verdict(valid: bool, message: string, campaignId: int)

  /** The campaign id check: `int()` succeeds and the id is at least 1. */
  predicate IdAccepted(campaignId: string) {
    PyInt(campaignId).Some? && PyInt(campaignId).value >= CampaignIdMin
  }

  function ValidateCampaignInputs(
    username: string, password: string, campaignId: string, fromDate: string, toDate: string,
    selectedTables: seq<string>, apiKey: string, parse: DateParser): (r: Verdict)
    ensures r.valid ==> r.message == "" && r.campaignId >= CampaignIdMin
    ensures r.valid ==> PyInt(campaignId) == Some(r.campaignId)
    ensures !r.valid ==> r.campaignId == 0 && r.message != ""
    ensures r.valid <==>
      && username != "" && password != "" && campaignId != ""
      && fromDate != "" && toDate != "" && |selectedTables| > 0 && apiKey != ""
      && IdAccepted(campaignId)
      && parse(fromDate).Some? && parse(toDate).Some?
      && parse(fromDate).value <= parse(toDate).value
  {
    if username == "" || password == "" then Verdict(false, NoUsernamePassword, 0)
    else if campaignId == "" then Verdict(false, NoCampaignId, 0)
    else if fromDate == "" || toDate == "" then Verdict(false, NoDates, 0)
    else if |selectedTables| == 0 then Verdict(false, NoTables, 0)
    else if apiKey == "" then Verdict(false, NoApiKey, 0)
    else if !IdAccepted(campaignId) then Verdict(false, InvalidCampaignId, 0)
    else if !ValidateDateFormat(fromDate, parse) then Verdict(false, InvalidDateFormat, 0)
    else if !ValidateDateFormat(toDate, parse) then Verdict(false, InvalidDateFormat, 0)
    else if !ValidateDateRange(fromDate, toDate, parse) then Verdict(false, InvalidDateRange, 0)
    else Verdict(true, "", PyInt(campaignId).value)
  }

  /** One check: whether it passes and the message shown when it fails. */
  datatype Check = Check(passes: bool, message: string)

  /** The checks in the order they are made. */
  function Checks(
    username: string, password: string, campaignId: string, fromDate: string, toDate: string,
    selectedTables: seq<string>, apiKey: string, parse: DateParser): seq<Check>
  {
    [ Check(username != "" && password != "", NoUsernamePassword),
      Check(campaignId != "", NoCampaignId),
      Check(fromDate != "" && toDate != "", NoDates),
      Check(|selectedTables| > 0, NoTables),
      Check(apiKey != "", NoApiKey),
      Check(IdAccepted(campaignId), InvalidCampaignId),
      Check(ValidateDateFormat(fromDate, parse), InvalidDateFormat),
      Check(ValidateDateFormat(toDate, parse), InvalidDateFormat),
      Check(ValidateDateRange(fromDate, toDate, parse), InvalidDateRange) ]
  }

  /** The message of the first failing check, if any. */
  function FirstFailure(cs: seq<Check>): Option<string>
    decreases |cs|
  {
    if |cs| == 0 then None
    else if !cs[0].passes then Some(cs[0].message)
    else FirstFailure(cs[1..])
  }

  /** There is no failure exactly when every check passes, and a failure is
      the message of a failing check that only passing checks precede. */
  lemma {:induction false} FirstFailureSpec(cs: seq<Check>)
    ensures FirstFailure(cs).None? <==> forall i :: 0 <= i < |cs| ==> cs[i].passes
    ensures FirstFailure(cs).Some? ==>
      exists i :: 0 <= i < |cs| && !cs[i].passes && FirstFailure(cs).value == cs[i].message
                  && forall j :: 0 <= j < i ==> cs[j].passes
    decreases |cs|
  {
    if |cs| > 0 && cs[0].passes {
      FirstFailureSpec(cs[1..]);
      assert forall i :: 1 <= i < |cs| ==> cs[i] == cs[1..][i - 1];
      if FirstFailure(cs[1..]).Some? {
        var i :| 0 <= i < |cs| - 1 && !cs[1..][i].passes && FirstFailure(cs[1..]).value == cs[1..][i].message
          && forall j :: 0 <= j < i ==> cs[1..][j].passes;
        assert !cs[i + 1].passes && forall j :: 0 <= j < i + 1 ==> cs[j].passes;
      }
    }
  }

  /** Validation is the first failure of the ordered checks: it fails with
      exactly that check's message, and passes when every check does. The
      proof goes through the checks one lemma at a time. */
  lemma ValidationIsFirstFailure(
    username: string, password: string, campaignId: string, fromDate: string, toDate: string,
    selectedTables: seq<string>, apiKey: string, parse: DateParser)
    ensures Agrees(ValidateCampaignInputs(username, password, campaignId, fromDate, toDate,
                                          selectedTables, apiKey, parse),
                   FirstFailure(Checks(username, password, campaignId, fromDate, toDate,
                                       selectedTables, apiKey, parse)))
  {
    var cs := Checks(username, password, campaignId, fromDate, toDate, selectedTables, apiKey, parse);
    if !(username != "" && password != "") {
      assert !cs[0].passes;
      FirstFailureAt(cs, 0);
    } else {
      CampaignIdCheck(username, password, campaignId, fromDate, toDate, selectedTables, apiKey, parse);
    }
  }

  /** The same once the credentials are present. */
  lemma CampaignIdCheck(
    username: string, password: string, campaignId: string, fromDate: string, toDate: string,
    selectedTables: seq<string>, apiKey: string, parse: DateParser)
    requires username != "" && password != ""
    ensures Agrees(ValidateCampaignInputs(username, password, campaignId, fromDate, toDate,
                                          selectedTables, apiKey, parse),
                   FirstFailure(Checks(username, password, campaignId, fromDate, toDate,
                                       selectedTables, apiKey, parse)))
  {
    var cs := Checks(username, password, campaignId, fromDate, toDate, selectedTables, apiKey, parse);
    if !(campaignId != "") {
      assert cs[0].passes;
      assert !cs[1].passes;
      FirstFailureAt(cs, 1);
    } else {
      DatesPresentCheck(username, password, campaignId, fromDate, toDate, selectedTables, apiKey, parse);
    }
  }

  /** The same once the campaign id is present as well. */
  lemma DatesPresentCheck(
    username: string, password: string, campaignId: string, fromDate: string, toDate: string,
    selectedTables: seq<string>, apiKey: string, parse: DateParser)
    requires username != "" && password != ""
    requires campaignId != ""
    ensures Agrees(ValidateCampaignInputs(username, password, campaignId, fromDate, toDate,
                                          selectedTables, apiKey, parse),
                   FirstFailure(Checks(username, password, campaignId, fromDate, toDate,
                                       selectedTables, apiKey, parse)))
  {
    var cs := Checks(username, password, campaignId, fromDate, toDate, selectedTables, apiKey, parse);
    if !(fromDate != "" && toDate != "") {
      assert cs[0].passes && cs[1].passes;
      assert !cs[2].passes;
      FirstFailureAt(cs, 2);
    } else {
      TablesCheck(username, password, campaignId, fromDate, toDate, selectedTables, apiKey, parse);
    }
  }

  /** The same once both dates are present as well. */
  lemma TablesCheck(
    username: string, password: string, campaignId: string, fromDate: string, toDate: string,
    selectedTables: seq<string>, apiKey: string, parse: DateParser)
    requires username != "" && password != ""
    requires campaignId != ""
    requires fromDate != "" && toDate != ""
    ensures Agrees(ValidateCampaignInputs(username, password, campaignId, fromDate, toDate,
                                          selectedTables, apiKey, parse),
                   FirstFailure(Checks(username, password, campaignId, fromDate, toDate,
                                       selectedTables, apiKey, parse)))
  {
    var cs := Checks(username, password, campaignId, fromDate, toDate, selectedTables, apiKey, parse);
    if !(|selectedTables| > 0) {
      assert cs[0].passes && cs[1].passes && cs[2].passes;
      assert !cs[3].passes;
      FirstFailureAt(cs, 3);
    } else {
      KeyCheck(username, password, campaignId, fromDate, toDate, selectedTables, apiKey, parse);
    }
  }

  /** The same once a table is selected as well. */
  lemma KeyCheck(
    username: string, password: string, campaignId: string, fromDate: string, toDate: string,
    selectedTables: seq<string>, apiKey: string, parse: DateParser)
    requires username != "" && password != ""
    requires campaignId != ""
    requires fromDate != "" && toDate != ""
    requires |selectedTables| > 0
    ensures Agrees(ValidateCampaignInputs(username, password, campaignId, fromDate, toDate,
                                          selectedTables, apiKey, parse),
                   FirstFailure(Checks(username, password, campaignId, fromDate, toDate,
                                       selectedTables, apiKey, parse)))
  {
    var cs := Checks(username, password, campaignId, fromDate, toDate, selectedTables, apiKey, parse);
    if !(apiKey != "") {
      assert cs[0].passes && cs[1].passes && cs[2].passes && cs[3].passes;
      assert !cs[4].passes;
      FirstFailureAt(cs, 4);
    } else {
      IdCheck(username, password, campaignId, fromDate, toDate, selectedTables, apiKey, parse);
    }
  }

  /** The same once every input is present. */
  lemma IdCheck(
    username: string, password: string, campaignId: string, fromDate: string, toDate: string,
    selectedTables: seq<string>, apiKey: string, parse: DateParser)
    requires username != "" && password != ""
    requires campaignId != ""
    requires fromDate != "" && toDate != ""
    requires |selectedTables| > 0
    requires apiKey != ""
    ensures Agrees(ValidateCampaignInputs(username, password, campaignId, fromDate, toDate,
                                          selectedTables, apiKey, parse),
                   FirstFailure(Checks(username, password, campaignId, fromDate, toDate,
                                       selectedTables, apiKey, parse)))
  {
    var cs := Checks(username, password, campaignId, fromDate, toDate, selectedTables, apiKey, parse);
    if !(IdAccepted(campaignId)) {
      assert cs[0].passes && cs[1].passes && cs[2].passes && cs[3].passes && cs[4].passes;
      assert !cs[5].passes;
      FirstFailureAt(cs, 5);
    } else {
      DateChecks(username, password, campaignId, fromDate, toDate, selectedTables, apiKey, parse);
    }
  }

  /** The same once the campaign id has been accepted. */
  lemma DateChecks(
    username: string, password: string, campaignId: string, fromDate: string, toDate: string,
    selectedTables: seq<string>, apiKey: string, parse: DateParser)
    requires username != "" && password != ""
    requires campaignId != ""
    requires fromDate != "" && toDate != ""
    requires |selectedTables| > 0
    requires apiKey != ""
    requires IdAccepted(campaignId)
    ensures Agrees(ValidateCampaignInputs(username, password, campaignId, fromDate, toDate,
                                          selectedTables, apiKey, parse),
                   FirstFailure(Checks(username, password, campaignId, fromDate, toDate,
                                       selectedTables, apiKey, parse)))
  {
    var cs := Checks(username, password, campaignId, fromDate, toDate, selectedTables, apiKey, parse);
    if !(ValidateDateFormat(fromDate, parse)) {
      assert cs[0].passes && cs[1].passes && cs[2].passes && cs[3].passes && cs[4].passes && cs[5].passes;
      assert !cs[6].passes;
      FirstFailureAt(cs, 6);
    } else {
      ToDateCheck(username, password, campaignId, fromDate, toDate, selectedTables, apiKey, parse);
    }
  }

  /** The same once the start date is well formed. */
  lemma ToDateCheck(
    username: string, password: string, campaignId: string, fromDate: string, toDate: string,
    selectedTables: seq<string>, apiKey: string, parse: DateParser)
    requires username != "" && password != ""
    requires campaignId != ""
    requires fromDate != "" && toDate != ""
    requires |selectedTables| > 0
    requires apiKey != ""
    requires IdAccepted(campaignId)
    requires ValidateDateFormat(fromDate, parse)
    ensures Agrees(ValidateCampaignInputs(username, password, campaignId, fromDate, toDate,
                                          selectedTables, apiKey, parse),
                   FirstFailure(Checks(username, password, campaignId, fromDate, toDate,
                                       selectedTables, apiKey, parse)))
  {
    var cs := Checks(username, password, campaignId, fromDate, toDate, selectedTables, apiKey, parse);
    if !(ValidateDateFormat(toDate, parse)) {
      assert cs[0].passes && cs[1].passes && cs[2].passes && cs[3].passes && cs[4].passes && cs[5].passes && cs[6].passes;
      assert !cs[7].passes;
      FirstFailureAt(cs, 7);
    } else {
      RangeCheck(username, password, campaignId, fromDate, toDate, selectedTables, apiKey, parse);
    }
  }

  /** The same once both dates are well formed. */
  lemma RangeCheck(
    username: string, password: string, campaignId: string, fromDate: string, toDate: string,
    selectedTables: seq<string>, apiKey: string, parse: DateParser)
    requires username != "" && password != ""
    requires campaignId != ""
    requires fromDate != "" && toDate != ""
    requires |selectedTables| > 0
    requires apiKey != ""
    requires IdAccepted(campaignId)
    requires ValidateDateFormat(fromDate, parse)
    requires ValidateDateFormat(toDate, parse)
    ensures Agrees(ValidateCampaignInputs(username, password, campaignId, fromDate, toDate,
                                          selectedTables, apiKey, parse),
                   FirstFailure(Checks(username, password, campaignId, fromDate, toDate,
                                       selectedTables, apiKey, parse)))
  {
    var cs := Checks(username, password, campaignId, fromDate, toDate, selectedTables, apiKey, parse);
    if !(ValidateDateRange(fromDate, toDate, parse)) {
      assert cs[0].passes && cs[1].passes && cs[2].passes && cs[3].passes && cs[4].passes && cs[5].passes && cs[6].passes && cs[7].passes;
      assert !cs[8].passes;
      FirstFailureAt(cs, 8);
    } else {
      assert cs[8].passes;
      NoFailure(cs);
    }
  }

  /** A verdict agrees with a first failure: it passes when nothing failed
      and otherwise fails with that message and id 0. */
  predicate Agrees(r: Verdict, f: Option<string>) {
    && (f.None? <==> r.valid)
    && (f.Some? ==> r == Verdict(false, f.value, 0))
  }

  /** When check `k` is the first to fail, its message is the first failure. */
  lemma {:induction false} FirstFailureAt(cs: seq<Check>, k: nat)
    requires k < |cs| && !cs[k].passes
    requires forall j :: 0 <= j < k ==> cs[j].passes
    ensures FirstFailure(cs) == Some(cs[k].message)
    decreases k
  {
    if k > 0 {
      FirstFailureAt(cs[1..], k - 1);
    }
  }

  /** When every check passes there is no failure. */
  lemma {:induction false} NoFailure(cs: seq<Check>)
    requires forall j :: 0 <= j < |cs| ==> cs[j].passes
    ensures FirstFailure(cs) == None
    decreases |cs|
  {
    if |cs| > 0 {
      NoFailure(cs[1..]);
    }
  }

  /** An id that parses to a number below 1 gets the same verdict as one that
      is not a number at all. */
  lemma LowIdLikeNonNumeric(
    username: string, password: string, id1: string, id2: string, fromDate: string, toDate: string,
    selectedTables: seq<string>, apiKey: string, parse: DateParser)
    requires id1 != "" && PyInt(id1).Some? && PyInt(id1).value < CampaignIdMin
    requires id2 != "" && PyInt(id2).None?
    ensures ValidateCampaignInputs(username, password, id1, fromDate, toDate, selectedTables, apiKey, parse)
         == ValidateCampaignInputs(username, password, id2, fromDate, toDate, selectedTables, apiKey, parse)
  {
  }

  /** The key only has to be non-empty: any two non-empty keys get the same
      verdict, even one the OpenAI key check rejects. */
  lemma ApiKeyOnlyNeedsText(
    username: string, password: string, campaignId: string, fromDate: string, toDate: string,
    selectedTables: seq<string>, key1: string, key2: string, parse: DateParser)
    requires key1 != "" && key2 != ""
    ensures ValidateCampaignInputs(username, password, campaignId, fromDate, toDate, selectedTables, key1, parse)
         == ValidateCampaignInputs(username, password, campaignId, fromDate, toDate, selectedTables, key2, parse)
  {
  }

  /** The OpenAI key check refuses a short key such as "x", which the input
      check above lets through. */
  lemma ShortKeyRejected()
    ensures !ValidateOpenaiApiKey("x") && ValidateOpenaiApiKey("sk-" + "abcdefghijklmnopqr")
  {
  }
}
