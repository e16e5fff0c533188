/** What only `js/app-vintage.js` does differently: the request it sends
    carries a shorter history and a differently worded closing message. */
module AppVintage {
  import opened Text
  import opened ChatContext

  const HistoryWindow: nat := 6

  /** The closing message: the summary, then the query. */
  function Consulta(summary: string, prompt: string): string {
    summary + "\n\nCONSULTA: " + prompt
  }

  /** `contents` of the request: the last six stored messages with roles
      reduced to user and model, then one user message with the summary
      and the query. */
  function RequestContents(history: seq<Msg>, summary: string, prompt: string): (r: seq<Msg>)
    ensures |r| == Min(HistoryWindow, |history|) + 1
    ensures r[..|r| - 1] == ForApi(Window(history, HistoryWindow))
    ensures forall m :: m in r ==> m.role == "user" || m.role == "model"
    ensures r[|r| - 1].role == "user"
    ensures StartsWith(r[|r| - 1].content, summary) && Contains(r[|r| - 1].content, prompt)
  {
    var turns := ForApi(Window(history, HistoryWindow));
    var q := Consulta(summary, prompt);
    ContainsSuffix(summary + "\n\nCONSULTA: ", prompt);
    assert q == summary + ("\n\nCONSULTA: " + prompt);
    assert q[..|summary|] == summary;
    var r := turns + [Msg("user", q)];
    assert r[..|r| - 1] == turns;
    r
  }
}
