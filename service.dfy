/**
 * The polling service: the file of alerts already sent, one pass of the
 * main loop (fetch the page, take the most recent alert, filter it, notify
 * once), and the loop itself over a finite number of passes.
 */
module Service {
  import opened Results
  import opened PyStr
  import opened Alerts
  import opened Classify

  // ------------------------------------------------------------- the file

  /** The alert file: `None` while it does not exist, otherwise the alerts it lists, oldest first. */
  type Store = Option<seq<Record>>

  /** The alerts the file lists; none when it does not exist. */
  function Records(db: Store): seq<Record> {
    if db.None? then [] else db.value
  }

  /** `check_fire_alert_in_db` as a value: some stored alert has the same
      time. Location and category are not compared. */
  predicate InStore(db: Store, alert: Record) {
    exists k :: 0 <= k < |Records(db)| && Records(db)[k].alertTime == alert.alertTime
  }

  /** `add_fire_alert_to_db` as a value: the file exists afterwards and lists the alert last. */
  function Added(db: Store, alert: Record): (r: Store)
    ensures r.Some? && Records(r) == Records(db) + [alert]
    ensures InStore(r, alert)
  {
    assert (Records(db) + [alert])[|Records(db)|] == alert;
    Some(Records(db) + [alert])
  }

  /** No two stored alerts have the same time. */
  predicate DistinctTimes(db: Store) {
    forall i, j :: 0 <= i < j < |Records(db)| ==> Records(db)[i].alertTime != Records(db)[j].alertTime
  }

  /** Adding an alert whose time is not stored yet keeps the times distinct. */
  lemma {:induction false} AddedKeepsDistinct(db: Store, alert: Record)
    requires DistinctTimes(db) && !InStore(db, alert)
    ensures DistinctTimes(Added(db, alert))
  {
    var rs := Records(Added(db, alert));
    forall i, j | 0 <= i < j < |rs| ensures rs[i].alertTime != rs[j].alertTime {
      if j == |rs| - 1 {
        assert rs[i] == Records(db)[i];
      } else {
        assert rs[i] == Records(db)[i] && rs[j] == Records(db)[j];
      }
    }
  }

  /** Only the time is compared: an alert not counted as stored differs in
      time from every alert that is. */
  lemma {:induction false} UnstoredTimeDiffers(db: Store, stored: Record, alert: Record)
    requires InStore(db, stored) && !InStore(db, alert)
    ensures alert.alertTime != stored.alertTime
  {
    var k :| 0 <= k < |Records(db)| && Records(db)[k].alertTime == stored.alertTime;
    assert Records(db)[k].alertTime != alert.alertTime;
  }

  /** Adding never forgets: whatever was stored stays stored. */
  lemma {:induction false} AddedKeepsStored(db: Store, alert: Record, other: Record)
    requires InStore(db, other)
    ensures InStore(Added(db, alert), other)
  {
    var k :| 0 <= k < |Records(db)| && Records(db)[k].alertTime == other.alertTime;
    assert Records(Added(db, alert))[k] == Records(db)[k];
  }

  // --------------------------------------------------------- one pass

  /** Why a pass ended the program with an exception. */
  datatype Crash =
    | FetchFailed(error: AlertsError)  // `get_fire_alerts` raised
    | NoAlerts                         // `fire_alerts[0]` on an empty list (also when the status was not ok)

  /** What one pass of the main loop does. */
  datatype Outcome =
    | Crashed(crash: Crash)
    | SkippedBySearch                            // the search term is not in the location
    | SkippedNotDangerous                        // the category is not in `WARN_ALARMS`
    | SkippedAlreadySent                         // an alert with the same time is stored
    | Sent(alert: Record, message: string)       // the notification was accepted and the alert stored
    | SendFailed(alert: Record, message: string) // the notification was refused; nothing stored

  /** What one pass sees: what `get_fire_alerts` gave (its records or its
      exception), and whether the push service accepts the notification. */
  datatype Round = Round(alerts: Result<seq<Record>, AlertsError>, accepted: bool)

  /** The notification text: category and location with each word
      capitalised, then the time as stored, one per line. */
  function Message(alert: Record): string {
    CapitalizePerWord(alert.alertType) + "\n" + CapitalizePerWord(alert.alertInfo) + "\n" + alert.alertTime
  }

  /** The notification has exactly three lines: the capitalised category,
      the capitalised location and the time. */
  lemma {:induction false} MessageLines(alert: Record)
    requires '\n' !in alert.alertTime
    ensures Split(Message(alert), "\n") ==
      [CapitalizePerWord(alert.alertType), CapitalizePerWord(alert.alertInfo), alert.alertTime]
  {
    SplitThree(CapitalizePerWord(alert.alertType), CapitalizePerWord(alert.alertInfo), alert.alertTime, '\n');
  }

  /** The outcome of a pass and the file after it. */
  datatype Polled = Polled(outcome: Outcome, db: Store)

  /** One pass of the main loop as a value. */
  function Poll(searchTerm: string, round: Round, db: Store): Polled {
    match round.alerts
    case Err(e) => Polled(Crashed(FetchFailed(e)), db)
    case Ok(alerts) =>
      if alerts == [] then Polled(Crashed(NoAlerts), db)
      else
        var alert := alerts[0];
        if !MatchesSearchTerm(searchTerm, alert.alertInfo) then Polled(SkippedBySearch, db)
        else if !IsDangerous(alert.alertType) then Polled(SkippedNotDangerous, db)
        else if InStore(db, alert) then Polled(SkippedAlreadySent, db)
        else if round.accepted then Polled(Sent(alert, Message(alert)), Added(db, alert))
        else Polled(SendFailed(alert, Message(alert)), db)
  }

  /** A pass makes the push request exactly when the page gives at least
      one alert and the most recent one matches the search term, has a
      dangerous category and has a time not stored yet; the request is about
      that alert. It is sent (accepted) exactly when, in addition, the push
      service accepts; a refused request leaves the file as it was. */
  lemma {:induction false} PollSends(searchTerm: string, round: Round, db: Store)
    ensures var o := Poll(searchTerm, round, db).outcome;
      (o.Sent? || o.SendFailed?) <==>
        && round.alerts.Ok?
        && |round.alerts.value| > 0
        && MatchesSearchTerm(searchTerm, round.alerts.value[0].alertInfo)
        && IsDangerous(round.alerts.value[0].alertType)
        && !InStore(db, round.alerts.value[0])
    ensures Poll(searchTerm, round, db).outcome.Sent? <==>
      && round.alerts.Ok?
      && |round.alerts.value| > 0
      && MatchesSearchTerm(searchTerm, round.alerts.value[0].alertInfo)
      && IsDangerous(round.alerts.value[0].alertType)
      && !InStore(db, round.alerts.value[0])
      && round.accepted
    ensures var o := Poll(searchTerm, round, db).outcome;
      o.Sent? || o.SendFailed? ==> o.alert == round.alerts.value[0] && o.message == Message(o.alert)
    ensures var p := Poll(searchTerm, round, db);
      p.outcome.SendFailed? ==> !round.accepted && p.db == db
  {
  }

  /** The file changes only when a notification is accepted, and then only
      by the alert notified about, added last. */
  lemma {:induction false} PollStore(searchTerm: string, round: Round, db: Store)
    ensures var p := Poll(searchTerm, round, db);
      if p.outcome.Sent? then p.db == Added(db, p.outcome.alert) else p.db == db
  {
  }

  /** A pass crashes when `get_fire_alerts` raised or gave no alert, and
      only then; a page whose status is not ok gives no alert. */
  lemma {:induction false} PollCrashes(searchTerm: string, round: Round, db: Store)
    ensures Poll(searchTerm, round, db).outcome.Crashed? <==> round.alerts.Err? || round.alerts.value == []
    ensures Poll(searchTerm, Round(FireAlerts(NotOk), round.accepted), db).outcome == Crashed(NoAlerts)
  {
  }

  /** A notification is three lines, the time on the last. */
  lemma {:induction false} PollMessage(searchTerm: string, round: Round, db: Store)
    requires Poll(searchTerm, round, db).outcome.Sent? && OneLineTimes(round.alerts)
    ensures var o := Poll(searchTerm, round, db).outcome;
      Split(o.message, "\n") ==
        [CapitalizePerWord(o.alert.alertType), CapitalizePerWord(o.alert.alertInfo), o.alert.alertTime]
  {
    MessageLines(round.alerts.value[0]);
  }

  /** Once an alert is sent, the same alerts do not send it again. */
  lemma {:induction false} SentOnce(searchTerm: string, round: Round, again: Round, db: Store)
    requires Poll(searchTerm, round, db).outcome.Sent? && again.alerts == round.alerts
    ensures Poll(searchTerm, again, Poll(searchTerm, round, db).db).outcome == SkippedAlreadySent
  {
  }

  /** A pass keeps the stored times distinct. */
  lemma {:induction false} PollKeepsDistinct(searchTerm: string, round: Round, db: Store)
    requires DistinctTimes(db)
    ensures DistinctTimes(Poll(searchTerm, round, db).db)
  {
    var p := Poll(searchTerm, round, db);
    if p.outcome.Sent? {
      AddedKeepsDistinct(db, p.outcome.alert);
    }
  }

  // ------------------------------------------------------------ the loop

  /** The outcomes of a run of passes and the file at its end. */
  datatype Trace = Trace(outcomes: seq<Outcome>, db: Store)

  /** The main loop over the given passes: it goes on after every skip and
      every refused notification, and stops at the first exception. */
  function Run(searchTerm: string, rounds: seq<Round>, db: Store): (t: Trace)
    ensures |t.outcomes| <= |rounds|
    decreases |rounds|
  {
    if rounds == [] then Trace([], db)
    else
      var p := Poll(searchTerm, rounds[0], db);
      if p.outcome.Crashed? then Trace([p.outcome], p.db)
      else
        var rest := Run(searchTerm, rounds[1..], p.db);
        Trace([p.outcome] + rest.outcomes, rest.db)
  }

  /** Only the last pass of a run can crash, and a run cut short ended in a crash. */
  lemma {:induction false} RunStopsAtCrash(searchTerm: string, rounds: seq<Round>, db: Store)
    ensures var os := Run(searchTerm, rounds, db).outcomes;
      && (forall k :: 0 <= k < |os| - 1 ==> !os[k].Crashed?)
      && (|os| < |rounds| ==> os != [] && os[|os| - 1].Crashed?)
    decreases |rounds|
  {
    if rounds != [] {
      var p := Poll(searchTerm, rounds[0], db);
      if !p.outcome.Crashed? {
        RunStopsAtCrash(searchTerm, rounds[1..], p.db);
      }
    }
  }

  /** The file only grows: what it listed before a run it lists, in order, after. */
  lemma {:induction false} RunStoreGrows(searchTerm: string, rounds: seq<Round>, db: Store)
    ensures var after := Records(Run(searchTerm, rounds, db).db);
      |Records(db)| <= |after| && after[..|Records(db)|] == Records(db)
    decreases |rounds|
  {
    if rounds != [] {
      var p := Poll(searchTerm, rounds[0], db);
      assert Records(p.db)[..|Records(db)|] == Records(db);
      if !p.outcome.Crashed? {
        RunStoreGrows(searchTerm, rounds[1..], p.db);
      }
    }
  }

  /** A run keeps the stored times distinct. */
  lemma {:induction false} RunKeepsDistinct(searchTerm: string, rounds: seq<Round>, db: Store)
    requires DistinctTimes(db)
    ensures DistinctTimes(Run(searchTerm, rounds, db).db)
    decreases |rounds|
  {
    if rounds != [] {
      var p := Poll(searchTerm, rounds[0], db);
      PollKeepsDistinct(searchTerm, rounds[0], db);
      if !p.outcome.Crashed? {
        RunKeepsDistinct(searchTerm, rounds[1..], p.db);
      }
    }
  }

  /** An alert sent during a run had a time not stored when the run began. */
  lemma {:induction false} RunSendsOnlyNew(searchTerm: string, rounds: seq<Round>, db: Store, k: nat)
    requires k < |Run(searchTerm, rounds, db).outcomes|
    requires Run(searchTerm, rounds, db).outcomes[k].Sent?
    ensures !InStore(db, Run(searchTerm, rounds, db).outcomes[k].alert)
    decreases k
  {
    var p := Poll(searchTerm, rounds[0], db);
    if k > 0 {
      var alert := Run(searchTerm, rounds, db).outcomes[k].alert;
      RunSendsOnlyNew(searchTerm, rounds[1..], p.db, k - 1);
      if InStore(db, alert) {
        if p.outcome.Sent? {
          AddedKeepsStored(db, p.outcome.alert, alert);
        }
      }
    }
  }

  /** No time is notified twice in a run: two sent alerts have different times. */
  lemma {:induction false} RunNeverResends(searchTerm: string, rounds: seq<Round>, db: Store, i: nat, j: nat)
    requires i < j < |Run(searchTerm, rounds, db).outcomes|
    requires Run(searchTerm, rounds, db).outcomes[i].Sent? && Run(searchTerm, rounds, db).outcomes[j].Sent?
    ensures Run(searchTerm, rounds, db).outcomes[i].alert.alertTime
         != Run(searchTerm, rounds, db).outcomes[j].alert.alertTime
    decreases i
  {
    var p := Poll(searchTerm, rounds[0], db);
    var os := Run(searchTerm, rounds, db).outcomes;
    var later := Run(searchTerm, rounds[1..], p.db).outcomes;
    assert os[0] == p.outcome && os[j] == later[j - 1];
    if i == 0 {
      PollStore(searchTerm, rounds[0], db);
      RunSendsOnlyNew(searchTerm, rounds[1..], p.db, j - 1);
      UnstoredTimeDiffers(p.db, os[0].alert, os[j].alert);
    } else {
      RunNeverResends(searchTerm, rounds[1..], p.db, i - 1, j - 1);
    }
  }

  // ------------------------------------------------------------ the service

  /** What the network answers during one pass: the alert page, and whether
      the push service accepts the notification. */
  datatype Exchange = Exchange(fetched: Fetch, accepted: bool)

  /** What the passes see of the network's answers. */
  function Seen(exchanges: seq<Exchange>): (rounds: seq<Round>)
    ensures |rounds| == |exchanges|
  {
    if exchanges == [] then []
    else [Round(FireAlerts(exchanges[0].fetched), exchanges[0].accepted)] + Seen(exchanges[1..])
  }

  /** Prepends the outcomes already seen to the trace of the remaining passes. */
  function Then(done: seq<Outcome>, t: Trace): Trace {
    Trace(done + t.outcomes, t.db)
  }

  lemma {:induction false} ThenTwice(first: seq<Outcome>, second: seq<Outcome>, t: Trace)
    ensures Then(first, Then(second, t)) == Then(first + second, t)
  {
    assert first + (second + t.outcomes) == first + second + t.outcomes;
  }

  lemma {:induction false} RunFrom(searchTerm: string, exchanges: seq<Exchange>, i: nat, db: Store)
    requires i < |exchanges|
    ensures var p := Poll(searchTerm, Round(FireAlerts(exchanges[i].fetched), exchanges[i].accepted), db);
      Run(searchTerm, Seen(exchanges[i..]), db) ==
        if p.outcome.Crashed? then Trace([p.outcome], p.db)
        else Then([p.outcome], Run(searchTerm, Seen(exchanges[i + 1..]), p.db))
  {
    assert exchanges[i..][0] == exchanges[i] && exchanges[i..][1..] == exchanges[i + 1..];
    assert Seen(exchanges[i..])[1..] == Seen(exchanges[i + 1..]);
  }

  /** The notifier: its search term and its alert file. */
  class FireNotifier {
    const searchTerm: string
    var db: Store

    constructor(searchTerm: string, db: Store)
      ensures this.searchTerm == searchTerm && this.db == db
    {
      this.searchTerm := searchTerm;
      this.db := db;
    }

    /** `check_fire_alert_in_db`: no file means nothing was sent; otherwise
        the stored alerts are scanned for one with the same time. */
    method CheckFireAlertInDb(alert: Record) returns (found: bool)
      ensures found == InStore(db, alert)
    {
      if db.None? {
        return false;
      }
      var data := db.value;
      for k := 0 to |data|
        invariant forall j :: 0 <= j < k ==> data[j].alertTime != alert.alertTime
      {
        if data[k].alertTime == alert.alertTime {
          assert Records(db)[k] == data[k];
          return true;
        }
      }
      return false;
    }

    /** `add_fire_alert_to_db`: creates the file with the alert alone, or
        appends the alert to the stored list. */
    method AddFireAlertToDb(alert: Record)
      modifies this
      ensures db == Added(old(db), alert)
    {
      if db.None? {
        assert [] + [alert] == [alert];
        db := Some([alert]);
        return;
      }
      var data := db.value;
      data := data + [alert];
      db := Some(data);
    }

    /** One pass of the main loop after the sleep. */
    method PollOnce(fetched: Fetch, accepted: bool) returns (outcome: Outcome)
      modifies this
      ensures Polled(outcome, db) == Poll(searchTerm, Round(FireAlerts(fetched), accepted), old(db))
    {
      var fireAlerts := GetFireAlerts(fetched);
      if fireAlerts.Err? {
        return Crashed(FetchFailed(fireAlerts.error));
      }
      if fireAlerts.value == [] {
        return Crashed(NoAlerts);
      }
      var recent := fireAlerts.value[0];
      var typeClean := CapitalizePerWord(recent.alertType);
      var infoClean := CapitalizePerWord(recent.alertInfo);
      if !MatchesSearchTerm(searchTerm, recent.alertInfo) {
        return SkippedBySearch;
      }
      if !IsDangerous(recent.alertType) {
        return SkippedNotDangerous;
      }
      var sent := CheckFireAlertInDb(recent);
      if sent {
        return SkippedAlreadySent;
      }
      var message := typeClean + "\n" + infoClean + "\n" + recent.alertTime;
      if accepted {
        AddFireAlertToDb(recent);
        return Sent(recent, message);
      }
      return SendFailed(recent, message);
    }

    /** The main loop over the given passes; it returns at the first exception. */
    method Serve(exchanges: seq<Exchange>) returns (outcomes: seq<Outcome>)
      modifies this
      ensures Trace(outcomes, db) == Run(searchTerm, Seen(exchanges), old(db))
    {
      outcomes := [];
      assert exchanges[0..] == exchanges;
      assert Then([], Run(searchTerm, Seen(exchanges), db)) == Run(searchTerm, Seen(exchanges), db);
      for i := 0 to |exchanges|
        invariant Run(searchTerm, Seen(exchanges), old(db)) == Then(outcomes, Run(searchTerm, Seen(exchanges[i..]), db))
      {
        RunFrom(searchTerm, exchanges, i, db);
        var outcome := PollOnce(exchanges[i].fetched, exchanges[i].accepted);
        ThenTwice(outcomes, [outcome], Run(searchTerm, Seen(exchanges[i + 1..]), db));
        outcomes := outcomes + [outcome];
        if outcome.Crashed? {
          return;
        }
      }
      assert exchanges[|exchanges|..] == [];
      assert outcomes + [] == outcomes;
    }
  }
}
