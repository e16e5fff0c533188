/** The conversation the assistant request is built from: the stored chat
    history (`{role, content}` in timestamp order), the window of recent
    messages that is sent along, and the rule that decides whether the
    financial summary is injected again. */
module ChatContext {
  import opened Text
  import opened Ledger

  datatype Msg = Msg(role: string, content: string)

  /** The tag that opens the injected financial summary. */
  const DataMarker: string := "[DADOS FINANCEIROS]"

  function Min(a: int, b: int): int {
    if a <= b then a else b
  }

  /** `history.slice(-n)`: the last `n` messages, or all of them when there
      are fewer (`slice(-0)` is the whole array). */
  function Window<T>(h: seq<T>, n: nat): (r: seq<T>)
    ensures n > 0 ==> |r| == Min(n, |h|)
    ensures n == 0 ==> r == h
    ensures r == h[|h| - |r|..]
  {
    if n == 0 || |h| <= n then h else h[|h| - n..]
  }

  /** A user message that carries the financial summary. */
  predicate IsDataMessage(m: Msg) {
    m.role == "user" && Contains(m.content, DataMarker)
  }

  /** How many messages follow the last data message (all of them when
      there is none). */
  function SinceLastData(recent: seq<Msg>): (n: nat)
    ensures n <= |recent|
    ensures forall i :: |recent| - n <= i < |recent| ==> !IsDataMessage(recent[i])
    ensures n < |recent| ==> IsDataMessage(recent[|recent| - 1 - n])
    decreases |recent|
  {
    if recent == [] then 0
    else if IsDataMessage(Last(recent)) then 0
    else SinceLastData(Init(recent)) + 1
  }

  /** The backward scan of `callGeminiAPI`: step back from the newest
      message until a data message, counting the messages passed. */
  method CountSinceData(recent: seq<Msg>) returns (count: nat)
    ensures count == SinceLastData(recent)
  {
    count := 0;
    var i := |recent|;
    while i > 0
      invariant 0 <= i <= |recent| && count == |recent| - i
      invariant forall j :: i <= j < |recent| ==> !IsDataMessage(recent[j])
      decreases i
    {
      if IsDataMessage(recent[i - 1]) {
        break;
      }
      count := count + 1;
      i := i - 1;
    }
    assert count < |recent| ==> IsDataMessage(recent[|recent| - 1 - count]);
  }

  /** The stored history keeps each prompt as typed, never the summary that
      was sent with it: unless a user typed the tag, the counter is simply
      the length of the window. */
  lemma CounterIsWindowLength(history: seq<Msg>, n: nat)
    requires n > 0
    requires forall m :: m in history ==> !IsDataMessage(m)
    ensures SinceLastData(Window(history, n)) == Min(n, |history|)
  {
    var w := Window(history, n);
    assert forall j :: 0 <= j < |w| ==> w[j] in history;
  }

  /** The turns the fixed script forwards: user and model messages, in
      order; any other role is dropped. */
  function KeptTurns(recent: seq<Msg>): (r: seq<Msg>)
    ensures |r| <= |recent|
    decreases |recent|
  {
    if recent == [] then []
    else
      var m := Last(recent);
      if m.role == "user" || m.role == "model" then KeptTurns(Init(recent)) + [m]
      else KeptTurns(Init(recent))
  }

  /** Exactly the user and model messages are kept. */
  lemma {:induction false} KeptTurnsMembers(recent: seq<Msg>)
    ensures forall m :: m in KeptTurns(recent) <==> m in recent && (m.role == "user" || m.role == "model")
    decreases |recent|
  {
    if recent != [] {
      KeptTurnsMembers(Init(recent));
      assert recent == Init(recent) + [Last(recent)];
    }
  }

  /** `role === 'user' ? 'user' : 'model'` over a window: same contents,
      only two roles left, the user's messages still the user's. */
  function ForApi(h: seq<Msg>): (r: seq<Msg>)
    ensures |r| == |h|
    ensures forall i :: 0 <= i < |h| ==>
      && r[i].content == h[i].content
      && (r[i].role == "user" || r[i].role == "model")
      && (r[i].role == "user" <==> h[i].role == "user")
    decreases |h|
  {
    if h == [] then []
    else ForApi(Init(h)) + [Msg(if Last(h).role == "user" then "user" else "model", Last(h).content)]
  }
}
