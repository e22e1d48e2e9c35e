/**
 * Alert records and how they are read off the alert page of fire_notifier.py:
 * the text normalisers `clean_text` and `capitalize_per_word`, the body of the
 * loop in `get_fire_alerts` that turns one alert card into a record, and the
 * loop itself.
 */
module Alerts {
  import opened Results
  import opened PyStr

  /** One alert: where (`alert_info`), what (`alert_type`) and when (`alert_time`, the page's own text). */
  datatype Record = Record(alertInfo: string, alertType: string, alertTime: string)

  /** All three fields are in upper case. */
  predicate IsUpperRecord(r: Record) {
    IsUpperText(r.alertInfo) && IsUpperText(r.alertType) && IsUpperText(r.alertTime)
  }

  /** One alert card of the page: the text of its first and of its second paragraph. */
  datatype Card = Card(infoText: string, timeText: string)

  /** What the page request gave back. */
  datatype Fetch =
    | Page(cards: seq<Card>)  // a response with an ok status, already cut into cards
    | NotOk                   // a response whose status is not ok
    | Raised                  // the request itself raised (no connection, timeout)

  /** The exceptions a card can raise while it is read. */
  datatype ParseError =
    | NoBangBeforeColon  // the single colon has no '!' before it: `split("!")[1]` is out of range
    | NoAsOfPrefix       // the second paragraph lacks "As of ": `split("As of ")[1]` is out of range
    | TypeUnassigned     // no card so far had exactly one colon: `alert_type` was never assigned

  /** The exceptions `get_fire_alerts` can raise. */
  datatype AlertsError = RequestRaised | CardFailed(cause: ParseError)

  // ------------------------------------------------------------- normalisers

  /** `clean_text`: strips the text, then deletes every newline, tab and
      carriage return. Deleting one character with `replace` is `DropChar`
      (`EraseChar` proves the two agree). */
  function CleanText(text: string): (r: string)
    ensures '\n' !in r && '\t' !in r && '\r' !in r
    ensures IsStripped(r)
  {
    var t := Strip(text);
    DropSpaceStripped(t, '\n');
    DropSpaceStripped(DropChar(t, '\n'), '\t');
    DropSpaceStripped(DropChar(DropChar(t, '\n'), '\t'), '\r');
    DropChar(DropChar(DropChar(t, '\n'), '\t'), '\r')
  }

  /** `clean_text` written with the general `replace`: the same function. */
  lemma {:induction false} CleanTextIsReplace(text: string)
    ensures CleanText(text) == Erase(Erase(Erase(Strip(text), "\n"), "\t"), "\r")
  {
    var t := Strip(text);
    EraseChar(t, '\n');
    EraseChar(DropChar(t, '\n'), '\t');
    EraseChar(DropChar(DropChar(t, '\n'), '\t'), '\r');
  }

  /** Cleaning clean text changes nothing. */
  lemma {:induction false} CleanTextIdempotent(text: string)
    ensures CleanText(CleanText(text)) == CleanText(text)
  {
    var r := CleanText(text);
    StripStripped(r);
    DropCharAbsent(r, '\n');
    DropCharAbsent(r, '\t');
    DropCharAbsent(r, '\r');
  }

  /** `str.capitalize` on one word: first letter upper case, the others lower case. */
  function Capitalize(w: string): (r: string)
    ensures |r| == |w|
    ensures r != [] ==> r[0] == UpperChar(w[0])
    ensures forall i :: 1 <= i < |w| ==> r[i] == LowerChar(w[i])
    ensures IsWord(w) ==> IsWord(r)
  {
    if w == [] then [] else [UpperChar(w[0])] + Lower(w[1..])
  }

  lemma {:induction false} CapitalizeIdempotent(w: string)
    ensures Capitalize(Capitalize(w)) == Capitalize(w)
  {
    if w != [] {
      CaseFolding(w[0]);
      forall i | 1 <= i < |w| ensures Capitalize(Capitalize(w))[i] == Capitalize(w)[i] {
        CaseFolding(w[i]);
      }
    }
  }

  function CapitalizeAll(ws: seq<string>): (r: seq<string>)
    ensures |r| == |ws|
    ensures forall k :: 0 <= k < |ws| ==> r[k] == Capitalize(ws[k])
  {
    seq(|ws|, k requires 0 <= k < |ws| => Capitalize(ws[k]))
  }

  /** `capitalize_per_word`: the words of the result are the capitalised words
      of the text, in order, and the result is exactly those words joined by
      single spaces. */
  function CapitalizePerWord(text: string): (r: string)
    ensures Words(r) == CapitalizeAll(Words(text))
    ensures r == Join(Words(r), " ")
    ensures IsStripped(r) && '\n' !in r
  {
    var ws := CapitalizeAll(Words(text));
    WordsOfJoin(ws);
    JoinOfWords(ws, '\n');
    Join(ws, " ")
  }

  /** Capitalising every word twice is capitalising it once. */
  lemma {:induction false} CapitalizePerWordIdempotent(text: string)
    ensures CapitalizePerWord(CapitalizePerWord(text)) == CapitalizePerWord(text)
  {
    var ws := Words(text);
    var once := CapitalizeAll(ws);
    assert Words(CapitalizePerWord(text)) == once;
    forall k | 0 <= k < |ws| ensures CapitalizeAll(once)[k] == once[k] {
      CapitalizeIdempotent(ws[k]);
    }
    assert CapitalizeAll(once) == once;
  }

  // ------------------------------------------------------- one alert card

  /** The first paragraph, cleaned and with its "->" arrows deleted. */
  function InfoLine(card: Card): string {
    Erase(CleanText(card.infoText), "->")
  }

  /** The first paragraph split at its colons. */
  function InfoParts(card: Card): (parts: seq<string>)
    ensures |parts| >= 1
  {
    Split(InfoLine(card), ":")
  }

  /** The card states its own category: its first paragraph has exactly one colon. */
  predicate NamesType(card: Card) {
    |InfoParts(card)| == 2
  }

  /** The second paragraph, cleaned. */
  function TimeLine(card: Card): string {
    CleanText(card.timeText)
  }

  /** The location as it is stored: with a single colon, the second '!'-piece
      of the text before it; otherwise that whole text, stripped. Then
      stripped, without "FIRE ALERT!", in upper case. `None` when there is a
      single colon and no '!' before it, where `split("!")[1]` fails. */
  function Location(card: Card): (r: Option<string>)
    ensures r.Some? ==> IsUpperText(r.value)
  {
    var parts := InfoParts(card);
    if |parts| == 2 && |Split(parts[0], "!")| < 2 then None
    else
      var info := if |parts| == 2 then Split(parts[0], "!")[1] else Strip(parts[0]);
      Some(Upper(Erase(Strip(info), "FIRE ALERT!")))
  }

  /** The category the card names itself: the text after its single colon, not yet stripped. */
  function NamedType(card: Card): (r: Option<string>)
    ensures r.Some? <==> NamesType(card)
  {
    var parts := InfoParts(card);
    if |parts| == 2 then Some(parts[1]) else None
  }

  /** The time as it is stored: the piece after the first "As of ", stripped,
      in upper case. `None` when there is no "As of ", where
      `split("As of ")[1]` fails. */
  function Time(card: Card): (r: Option<string>)
    ensures r.Some? ==> IsUpperText(r.value)
  {
    var times := Split(TimeLine(card), "As of ");
    if |times| < 2 then None else Some(Upper(Strip(times[1])))
  }

  /** What one card says, before the category carried from earlier cards is consulted. */
  datatype Reading = Reading(info: string, namedType: Option<string>, time: string)

  /** Reads one card in the order the loop body does: the location (line
      153 can fail), then the time (line 157 can fail). */
  function ReadCard(card: Card): (r: Result<Reading, ParseError>)
    ensures r.Ok? ==> IsUpperText(r.value.info) && IsUpperText(r.value.time)
    ensures r.Ok? ==> (r.value.namedType.Some? <==> NamesType(card))
  {
    match Location(card)
    case None => Err(NoBangBeforeColon)
    case Some(info) =>
      match Time(card)
      case None => Err(NoAsOfPrefix)
      case Some(time) => Ok(Reading(info, NamedType(card), time))
  }

  /** What reading one card yields: its record, and the value `alert_type` keeps for the next card. */
  datatype Extracted = Extracted(record: Record, alertType: string)

  /** Finishes a card given the value `alert_type` had before it (`None`
      while it was never assigned): the card's own category if it names one,
      otherwise the carried one, stripped (line 161 fails when there is none). */
  function Step(reading: Reading, carried: Option<string>): (r: Result<Extracted, ParseError>)
    ensures r.Err? <==> reading.namedType.None? && carried.None?
    ensures r.Err? ==> r.error == TypeUnassigned
    ensures r.Ok? ==> IsUpperText(r.value.record.alertType) && IsStripped(r.value.alertType)
    ensures r.Ok? ==> r.value.record.alertInfo == reading.info && r.value.record.alertTime == reading.time
    ensures r.Ok? ==> r.value.record.alertType == Upper(r.value.alertType)
  {
    var alertType := if reading.namedType.Some? then reading.namedType else carried;
    match alertType
    case None => Err(TypeUnassigned)
    case Some(ty) =>
      var t := Strip(ty);
      Ok(Extracted(Record(reading.info, Upper(t), reading.time), t))
  }

  /** A card names its category exactly when its first paragraph has one colon. */
  lemma {:induction false} NamesTypeByCount(card: Card)
    ensures NamesType(card) <==> Count(InfoLine(card), ':') == 1
  {
    CountSplit(InfoLine(card), ':');
  }

  /** Reading the location fails exactly when there is a single colon and no '!' before it. */
  lemma {:induction false} LocationFails(card: Card)
    ensures Location(card).None? <==> NamesType(card) && '!' !in InfoParts(card)[0]
  {
    FindChar(InfoParts(card)[0], '!');
  }

  /** Reading the time fails exactly when the second paragraph has no "As of ". */
  lemma {:induction false} TimeFails(card: Card)
    ensures Time(card).None? <==> !Contains(TimeLine(card), "As of ")
  {
    ContainsFind(TimeLine(card), "As of ");
  }

  /** With a single colon, the location is the text between the first '!'
      before it and the next '!' (or the colon); without one, it is all the
      text before the first colon. Either way it is then stripped, loses
      "FIRE ALERT!" and is put in upper case. */
  lemma {:induction false} LocationSpec(card: Card)
    requires Location(card).Some?
    ensures var line := InfoLine(card);
      var x := line[..Position(line, ":")];
      if NamesType(card) then
        var i := Position(x, "!");
        && i < |x|
        && (var rest := x[i + 1..];
            Location(card).value == Upper(Erase(Strip(rest[..Position(rest, "!")]), "FIRE ALERT!")))
      else
        Location(card).value == Upper(Erase(Strip(x), "FIRE ALERT!"))
  {
    var line := InfoLine(card);
    SplitHead(line, ":");
    var x := InfoParts(card)[0];
    if NamesType(card) {
      SplitTail(x, "!");
      var rest := x[Position(x, "!") + 1..];
      SplitHead(rest, "!");
    } else {
      StripIdempotent(x);
    }
  }

  /** The category a card names is all the text after its colon, which holds no further colon. */
  lemma {:induction false} NamedTypeSpec(card: Card)
    requires NamesType(card)
    ensures var line := InfoLine(card);
      var k := Position(line, ":");
      && k < |line|
      && ':' !in line[k + 1..]
      && NamedType(card) == Some(line[k + 1..])
  {
    var line := InfoLine(card);
    SplitTail(line, ":");
    FindChar(line[Position(line, ":") + 1..], ':');
  }

  /** The time is the text after the first "As of ", up to a second one if
      any, stripped and in upper case. */
  lemma {:induction false} TimeSpec(card: Card)
    requires Time(card).Some?
    ensures var t := TimeLine(card);
      var i := Position(t, "As of ");
      && i + 6 <= |t|
      && (var rest := t[i + 6..];
          Time(card).value == Upper(Strip(rest[..Position(rest, "As of ")])))
  {
    var t := TimeLine(card);
    SplitTail(t, "As of ");
    SplitHead(t[Position(t, "As of ") + 6..], "As of ");
  }

  /** The time is a single line: cleaning removed every newline and nothing later adds one. */
  lemma {:induction false} TimeOneLine(card: Card)
    requires Time(card).Some?
    ensures '\n' !in Time(card).value
  {
    TimeSpec(card);
    var t := TimeLine(card);
    var rest := t[Position(t, "As of ") + 6..];
    var piece := rest[..Position(rest, "As of ")];
    assert '\n' !in piece;
    StripKeepsOut(piece, '\n');
    UpperKeepsOut(Strip(piece), '\n');
  }

  // ---------------------------------------------------------- all the cards

  /** The loop of `get_fire_alerts` over cards already read, from a given
      card on, `alert_type` holding `carried`: the first failure stops it. */
  function ExtractAll(readings: seq<Result<Reading, ParseError>>, carried: Option<string>)
    : (r: Result<seq<Record>, ParseError>)
    ensures r.Ok? ==> |r.value| == |readings|
    ensures r.Ok? ==> forall k :: 0 <= k < |readings| ==> readings[k].Ok?
    decreases |readings|
  {
    if readings == [] then Ok([])
    else
      match readings[0]
      case Err(e) => Err(e)
      case Ok(reading) =>
        match Step(reading, carried)
        case Err(e) => Err(e)
        case Ok(x) =>
          match ExtractAll(readings[1..], Some(x.alertType))
          case Err(e) => Err(e)
          case Ok(rest) => Ok([x.record] + rest)
  }

  /** Record `k` holds the location and time card `k` was read with, and its own category when it names one. */
  lemma {:induction false} ExtractAllFields(readings: seq<Result<Reading, ParseError>>, carried: Option<string>, k: nat)
    requires ExtractAll(readings, carried).Ok? && k < |readings|
    ensures var rec := ExtractAll(readings, carried).value[k];
      var rd := readings[k].value;
      && rec.alertInfo == rd.info && rec.alertTime == rd.time
      && IsUpperText(rec.alertType)
      && (rd.namedType.Some? ==> rec.alertType == Upper(Strip(rd.namedType.value)))
    decreases k
  {
    var x := Step(readings[0].value, carried).value;
    if k > 0 {
      ExtractAllFields(readings[1..], Some(x.alertType), k - 1);
    }
  }

  /** With no category carried in, the first card must name one. */
  lemma {:induction false} ExtractAllFirstNeedsType(readings: seq<Result<Reading, ParseError>>)
    requires readings != [] && ExtractAll(readings, None).Ok?
    ensures readings[0].value.namedType.Some?
  {
  }

  /** A later card that names no category silently gets the category of the card before it. */
  lemma {:induction false} ExtractAllReusesType(readings: seq<Result<Reading, ParseError>>, carried: Option<string>, k: nat)
    requires ExtractAll(readings, carried).Ok?
    requires 0 < k < |readings| && readings[k].value.namedType.None?
    ensures ExtractAll(readings, carried).value[k].alertType == ExtractAll(readings, carried).value[k - 1].alertType
    decreases k
  {
    var x := Step(readings[0].value, carried).value;
    var rest := readings[1..];
    if k == 1 {
      StripStripped(x.alertType);
    } else {
      ExtractAllReusesType(rest, Some(x.alertType), k - 1);
    }
  }

  /** Conversely, the loop completes when every card was read and the first
      card names a category whenever none is carried in. */
  lemma {:induction false} ExtractAllOk(readings: seq<Result<Reading, ParseError>>, carried: Option<string>)
    requires forall k :: 0 <= k < |readings| ==> readings[k].Ok?
    requires readings != [] && carried.None? ==> readings[0].value.namedType.Some?
    ensures ExtractAll(readings, carried).Ok?
    decreases |readings|
  {
    if readings != [] {
      var x := Step(readings[0].value, carried).value;
      ExtractAllOk(readings[1..], Some(x.alertType));
    }
  }

  /** Every card of the page, read, in page order. */
  function ReadAll(cards: seq<Card>): (r: seq<Result<Reading, ParseError>>)
    ensures |r| == |cards|
  {
    if cards == [] then [] else [ReadCard(cards[0])] + ReadAll(cards[1..])
  }

  lemma {:induction false} ReadAllAt(cards: seq<Card>, k: nat)
    requires k < |cards|
    ensures ReadAll(cards)[k] == ReadCard(cards[k])
    decreases k
  {
    if k > 0 {
      ReadAllAt(cards[1..], k - 1);
    }
  }

  /** `get_fire_alerts` as a value: an empty list when the status is not ok,
      otherwise a record per card or the first exception a card raises. */
  function FireAlerts(fetched: Fetch): Result<seq<Record>, AlertsError> {
    match fetched
    case Raised => Err(RequestRaised)
    case NotOk => Ok([])
    case Page(cards) =>
      match ExtractAll(ReadAll(cards), None)
      case Err(e) => Err(CardFailed(e))
      case Ok(records) => Ok(records)
  }

  /** A page gives one record per card, record `k` made from card `k`: its
      location and its time, in upper case, and its own category when it
      names one. */
  lemma {:induction false} FireAlertsRecords(cards: seq<Card>, k: nat)
    requires FireAlerts(Page(cards)).Ok? && k < |cards|
    ensures var recs := FireAlerts(Page(cards)).value;
      && |recs| == |cards|
      && Location(cards[k]) == Some(recs[k].alertInfo)
      && Time(cards[k]) == Some(recs[k].alertTime)
      && IsUpperRecord(recs[k])
      && (NamesType(cards[k]) ==> recs[k].alertType == Upper(Strip(NamedType(cards[k]).value)))
  {
    ExtractAllFields(ReadAll(cards), None, k);
    ReadAllAt(cards, k);
  }

  /** No time in the outcome has a newline. */
  predicate OneLineTimes(alerts: Result<seq<Record>, AlertsError>) {
    alerts.Ok? ==> forall k :: 0 <= k < |alerts.value| ==> '\n' !in alerts.value[k].alertTime
  }

  /** Every time `get_fire_alerts` gives is a single line. */
  lemma {:induction false} FireAlertsOneLine(fetched: Fetch)
    ensures OneLineTimes(FireAlerts(fetched))
  {
    if fetched.Page? && FireAlerts(fetched).Ok? {
      forall k | 0 <= k < |FireAlerts(fetched).value| ensures '\n' !in FireAlerts(fetched).value[k].alertTime {
        FireAlertsRecords(fetched.cards, k);
        TimeOneLine(fetched.cards[k]);
      }
    }
  }

  /** With no category seen before it, the first card of a page must name one. */
  lemma {:induction false} FireAlertsFirstType(cards: seq<Card>)
    requires FireAlerts(Page(cards)).Ok? && cards != []
    ensures NamesType(cards[0])
  {
    ReadAllAt(cards, 0);
    ExtractAllFirstNeedsType(ReadAll(cards));
  }

  /** The category travels down the page: a card that names none repeats
      the category of the record before it. */
  lemma {:induction false} FireAlertsReuseType(cards: seq<Card>, k: nat)
    requires FireAlerts(Page(cards)).Ok? && 0 < k < |cards| && !NamesType(cards[k])
    ensures FireAlerts(Page(cards)).value[k].alertType == FireAlerts(Page(cards)).value[k - 1].alertType
  {
    ReadAllAt(cards, k);
    ExtractAllReusesType(ReadAll(cards), None, k);
  }

  /** One card that cannot be read makes the whole page fail. */
  lemma {:induction false} FireAlertsAllOrNothing(cards: seq<Card>, k: nat)
    requires k < |cards| && (Location(cards[k]).None? || Time(cards[k]).None?)
    ensures FireAlerts(Page(cards)).Err?
  {
    ReadAllAt(cards, k);
  }

  /** A page is read exactly when every card's location and time can be read
      and its first card names a category. */
  lemma {:induction false} FireAlertsOk(cards: seq<Card>)
    ensures FireAlerts(Page(cards)).Ok? <==>
      && (forall k :: 0 <= k < |cards| ==> Location(cards[k]).Some? && Time(cards[k]).Some?)
      && (cards != [] ==> NamesType(cards[0]))
  {
    if FireAlerts(Page(cards)).Ok? {
      FireAlertsOkNeeds(cards);
    } else if (forall k :: 0 <= k < |cards| ==> Location(cards[k]).Some? && Time(cards[k]).Some?)
      && (cards != [] ==> NamesType(cards[0])) {
      FireAlertsOkWhen(cards);
    }
  }

  lemma {:induction false} FireAlertsOkNeeds(cards: seq<Card>)
    requires FireAlerts(Page(cards)).Ok?
    ensures forall k :: 0 <= k < |cards| ==> Location(cards[k]).Some? && Time(cards[k]).Some?
    ensures cards != [] ==> NamesType(cards[0])
  {
    forall k | 0 <= k < |cards| ensures Location(cards[k]).Some? && Time(cards[k]).Some? {
      ReadAllAt(cards, k);
    }
    if cards != [] {
      FireAlertsFirstType(cards);
    }
  }

  lemma {:induction false} FireAlertsOkWhen(cards: seq<Card>)
    requires forall k :: 0 <= k < |cards| ==> Location(cards[k]).Some? && Time(cards[k]).Some?
    requires cards != [] ==> NamesType(cards[0])
    ensures FireAlerts(Page(cards)).Ok?
  {
    var readings := ReadAll(cards);
    forall k | 0 <= k < |readings| ensures readings[k].Ok? {
      ReadAllAt(cards, k);
    }
    if cards != [] {
      ReadAllAt(cards, 0);
    }
    ExtractAllOk(readings, None);
  }

  /** Prepends the records already collected to the outcome of the remaining cards. */
  function Prefixed(done: seq<Record>, r: Result<seq<Record>, ParseError>): Result<seq<Record>, ParseError> {
    match r
    case Err(e) => Err(e)
    case Ok(rest) => Ok(done + rest)
  }

  lemma {:induction false} PrefixedTwice(first: seq<Record>, second: seq<Record>, r: Result<seq<Record>, ParseError>)
    ensures Prefixed(first, Prefixed(second, r)) == Prefixed(first + second, r)
  {
    if r.Ok? {
      assert first + (second + r.value) == first + second + r.value;
    }
  }

  lemma {:induction false} PrefixedNothing(r: Result<seq<Record>, ParseError>)
    ensures Prefixed([], r) == r
  {
    if r.Ok? {
      assert [] + r.value == r.value;
    }
  }

  /** One more card read and finished: its record goes in front of what the rest gives. */
  lemma {:induction false} ExtractAllCons(reading: Reading, rest: seq<Result<Reading, ParseError>>, carried: Option<string>)
    requires Step(reading, carried).Ok?
    ensures var x := Step(reading, carried).value;
      ExtractAll([Ok(reading)] + rest, carried) == Prefixed([x.record], ExtractAll(rest, Some(x.alertType)))
  {
    assert ([Ok(reading)] + rest)[1..] == rest;
  }

  lemma {:induction false} ReadAllFrom(cards: seq<Card>, i: nat)
    requires i < |cards|
    ensures ReadAll(cards[i..]) == [ReadCard(cards[i])] + ReadAll(cards[i + 1..])
  {
    assert cards[i..][1..] == cards[i + 1..];
  }

  /** `get_fire_alerts`: one record per card in page order, `alert_type`
      carried from one card to the next. */
  method GetFireAlerts(fetched: Fetch) returns (r: Result<seq<Record>, AlertsError>)
    ensures r == FireAlerts(fetched)
  {
    if fetched.Raised? {
      return Err(RequestRaised);
    }
    if fetched.NotOk? {
      return Ok([]);
    }
    var cards := fetched.cards;
    var data: seq<Record> := [];
    var alertType: Option<string> := None;
    assert cards[0..] == cards;
    PrefixedNothing(ExtractAll(ReadAll(cards), None));
    for i := 0 to |cards|
      invariant ExtractAll(ReadAll(cards), None) == Prefixed(data, ExtractAll(ReadAll(cards[i..]), alertType))
    {
      ReadAllFrom(cards, i);
      var reading := ReadCard(cards[i]);
      if reading.Err? {
        return Err(CardFailed(reading.error));
      }
      var x := Step(reading.value, alertType);
      if x.Err? {
        return Err(CardFailed(x.error));
      }
      ExtractAllCons(reading.value, ReadAll(cards[i + 1..]), alertType);
      PrefixedTwice(data, [x.value.record], ExtractAll(ReadAll(cards[i + 1..]), Some(x.value.alertType)));
      data := data + [x.value.record];
      alertType := Some(x.value.alertType);
    }
    assert cards[|cards|..] == [];
    assert data + [] == data;
    return Ok(data);
  }
}
