/** What only `js/app.js` does: day labels on the list headers, the
    "upcoming" selection of the summary, and the request it sends. */
module AppJs {
  import opened Text
  import opened Calendar
  import opened Ledger
  import opened ChatContext

  /** `formatDateHeader`: "Hoje, ...", "Amanhã, ..." or the weekday form. */
  datatype DayLabel = Hoje(day: Date) | Amanha(day: Date) | WeekdayForm(day: Date)

  function FormatDateHeader(d: Date, today: Date): (l: DayLabel)
    ensures l.day == d
  {
    if d == today then Hoje(d)
    else if d == Succ(today) then Amanha(d)
    else WeekdayForm(d)
  }

  /** The label names today exactly for today's day and tomorrow exactly
      for the next day; every other day, past or later, gets the weekday form. */
  lemma HeaderLabelByDistance(d: Date, today: Date)
    requires Valid(d) && Valid(today)
    ensures FormatDateHeader(d, today).Hoje? <==> DayNumber(d) == DayNumber(today)
    ensures FormatDateHeader(d, today).Amanha? <==> DayNumber(d) == DayNumber(today) + 1
    ensures FormatDateHeader(d, today).WeekdayForm? <==>
            DayNumber(d) < DayNumber(today) || DayNumber(d) > DayNumber(today) + 1
  {
    SuccIsNextDay(today);
    DayNumberOrder(d, today);
    DayNumberOrder(d, Succ(today));
  }

  /** The moment `new Date()`: a UTC day and the milliseconds past its midnight. */
  datatype Instant = Instant(day: Date, msOfDay: nat)

  /** `new Date(t.date) >= new Date()`: the transaction's UTC midnight is
      not earlier than now. */
  predicate NotEarlier(t: Tx, now: Instant) {
    Before(now.day, t.date) || (t.date == now.day && now.msOfDay == 0)
  }

  /** The filter, in list order. */
  function NotEarlierThan(txs: seq<Tx>, now: Instant): (r: seq<Tx>)
    ensures |r| <= |txs|
    ensures forall t :: t in r <==> t in txs && NotEarlier(t, now)
    decreases |txs|
  {
    if txs == [] then []
    else if NotEarlier(Last(txs), now) then NotEarlierThan(Init(txs), now) + [Last(txs)]
    else NotEarlierThan(Init(txs), now)
  }

  /** `upcoming`: the first five transactions, in list order, that are not
      earlier than now. */
  function Upcoming(txs: seq<Tx>, now: Instant): (r: seq<Tx>)
    ensures |r| == Min(5, |NotEarlierThan(txs, now)|)
    ensures r == NotEarlierThan(txs, now)[..|r|]
    ensures forall t :: t in r ==> t in txs && NotEarlier(t, now)
  {
    var f := NotEarlierThan(txs, now);
    if |f| <= 5 then f else f[..5]
  }

  const HistoryWindow: nat := 10

  /** The closing message: the summary, then the question. */
  function Question(summary: string, prompt: string): string {
    "Baseado neste resumo:\n" + summary + "\n\nMinha pergunta: " + prompt
  }

  /** The closing message carries both the summary and the question. */
  lemma QuestionCarries(summary: string, prompt: string)
    ensures Contains(Question(summary, prompt), prompt) && Contains(Question(summary, prompt), summary)
  {
    ContainsSuffix("Baseado neste resumo:\n" + summary + "\n\nMinha pergunta: ", prompt);
    ContainsMiddle("Baseado neste resumo:\n", summary, "\n\nMinha pergunta: " + prompt);
    assert Question(summary, prompt) == "Baseado neste resumo:\n" + summary + ("\n\nMinha pergunta: " + prompt);
  }

  /** `contents` of the request: the last ten stored messages with roles
      reduced to user and model, then one user message with the summary
      and the question. */
  function RequestContents(history: seq<Msg>, summary: string, prompt: string): (r: seq<Msg>)
    ensures |r| == Min(HistoryWindow, |history|) + 1
    ensures r[..|r| - 1] == ForApi(Window(history, HistoryWindow))
    ensures forall m :: m in r ==> m.role == "user" || m.role == "model"
    ensures r[|r| - 1].role == "user"
    ensures Contains(r[|r| - 1].content, prompt) && Contains(r[|r| - 1].content, summary)
  {
    var turns := ForApi(Window(history, HistoryWindow));
    QuestionCarries(summary, prompt);
    var r := turns + [Msg("user", Question(summary, prompt))];
    assert r[..|r| - 1] == turns;
    r
  }
}
