/** The daily request quota of `process_message` in
    `telegram_openai_assistant/handlers.py`, with the counter record of
    `telegram_openai_assistant/utils.py`. Dates are the ISO strings that
    `str(datetime.date.today())` produces; the clock is an input. */
module Quota {
  import opened Wrappers

  /** Requests served per day before further ones are dropped. */
  const DailyLimit: int := 100

  /** The JSON record `{"date": ..., "count": ...}` kept in `message_count.json`. */
  datatype Counter = Counter(date: string, count: int)

  /** `get_message_count`: a missing file reads as today's date with count 0. */
  function LoadCounter(stored: Option<Counter>, today: string): (c: Counter)
    ensures stored == None ==> c == Counter(today, 0)
    ensures stored != None ==> c == stored.value
  {
    stored.GetOr(Counter(today, 0))
  }

  /** The count that applies today: a record stamped with another date counts as 0. */
  function EffectiveCount(c: Counter, today: string): (n: int)
    ensures c.date != today ==> n == 0
    ensures c.date == today ==> n == c.count
  {
    if c.date != today then 0 else c.count
  }

  /** What `process_message` does with one request. */
  datatype Decision =
    | Drop                    // over quota: no answer is sent and nothing is written
    | Serve(stored: Counter)  // answered; the record written by `update_message_count`

  /** The gate: drop when today's count has reached the limit, otherwise
      serve and store today's date with the count one higher. */
  function Gate(stored: Option<Counter>, today: string): (d: Decision)
    ensures d.Drop? <==> (exists c :: stored == Some(c) && c.date == today && c.count >= DailyLimit)
    ensures d.Serve? ==> d.stored.date == today && d.stored.count <= DailyLimit
    ensures d.Serve? && (stored == None || stored.value.date != today) ==> d.stored.count == 1
    ensures d.Serve? && stored != None && stored.value.date == today ==> d.stored.count == stored.value.count + 1
  {
    var count := EffectiveCount(LoadCounter(stored, today), today);
    if count >= DailyLimit then Drop else Serve(Counter(today, count + 1))
  }

  /** Today's count as the gate sees it. */
  function Used(stored: Option<Counter>, today: string): int {
    EffectiveCount(LoadCounter(stored, today), today)
  }

  /** The record on disk after one request. A request at or over the limit
      leaves the record exactly as it was; one under the limit stamps the
      record with today and raises today's count by exactly one. */
  function After(stored: Option<Counter>, today: string): (r: Option<Counter>)
    ensures r == stored <==> Used(stored, today) >= DailyLimit
    ensures Used(stored, today) < DailyLimit ==>
      r != None && r.value.date == today && Used(r, today) == Used(stored, today) + 1
    ensures Used(stored, today) <= DailyLimit ==> Used(r, today) <= DailyLimit
  {
    match Gate(stored, today)
    case Drop => stored
    case Serve(c) => Some(c)
  }

  /** `n` requests on the same day: the final record and how many were answered. */
  function Requests(stored: Option<Counter>, today: string, n: nat): (Option<Counter>, nat)
    decreases n
  {
    if n == 0 then (stored, 0)
    else
      var next := After(stored, today);
      var (last, served) := Requests(next, today, n - 1);
      (last, if Gate(stored, today).Serve? then served + 1 else served)
  }

  function Min(a: int, b: int): int {
    if a <= b then a else b
  }

  /** Over any run of same-day requests, exactly `min(n, 100 - used)` are
      answered and today's count never exceeds the limit. */
  lemma {:induction false} RequestsServed(stored: Option<Counter>, today: string, n: nat)
    requires Used(stored, today) <= DailyLimit
    ensures var (last, served) := Requests(stored, today, n);
      && served == Min(n, DailyLimit - Used(stored, today))
      && Used(last, today) <= DailyLimit
      && Used(last, today) == Used(stored, today) + served
    decreases n
  {
    if n > 0 {
      var next := After(stored, today);
      if Gate(stored, today).Serve? {
        assert Used(next, today) == Used(stored, today) + 1;
      } else {
        assert next == stored;
      }
      RequestsServed(next, today, n - 1);
    }
  }

  /** From a record stamped today with a count of at most 100, no run of
      same-day requests stores a count above 100. */
  lemma CountStaysBounded(c: Counter, today: string, n: nat)
    requires c.date == today && c.count <= DailyLimit
    ensures var last := Requests(Some(c), today, n).0;
      last != None && last.value.count <= DailyLimit
  {
    RequestsServed(Some(c), today, n);
    RequestsKeepRecord(Some(c), today, n);
  }

  /** Once a record exists, a run of requests keeps a record stamped with
      the stored date or today. */
  lemma {:induction false} RequestsKeepRecord(stored: Option<Counter>, today: string, n: nat)
    requires stored != None && stored.value.date == today
    ensures var last := Requests(stored, today, n).0;
      last != None && last.value.date == today
    decreases n
  {
    if n > 0 {
      RequestsKeepRecord(After(stored, today), today, n - 1);
    }
  }

  /** From a fresh day, exactly the first 100 requests are answered and every later one is dropped. */
  lemma FreshDayServesLimit(today: string, n: nat)
    ensures Requests(Some(Counter(today, 0)), today, n).1 == Min(n, DailyLimit)
    ensures Requests(None, today, n).1 == Min(n, DailyLimit)
  {
    RequestsServed(Some(Counter(today, 0)), today, n);
    RequestsServed(None, today, n);
  }

  /** The 101st request of a fresh day is dropped. */
  lemma HundredFirstDropped(today: string)
    ensures Gate(Requests(Some(Counter(today, 0)), today, 100).0, today) == Drop
  {
    RequestsServed(Some(Counter(today, 0)), today, 100);
    RequestsKeepRecord(Some(Counter(today, 0)), today, 100);
  }

  /** A stale record at the limit does not block a new day: the request is
      answered and 1 is stored. */
  lemma StaleRecordResets(yesterday: string, today: string)
    requires yesterday != today
    ensures Gate(Some(Counter(yesterday, DailyLimit)), today) == Serve(Counter(today, 1))
  {
  }
}
