/** The unified conversation: the items a session stores and sends to a provider. */
module Conversation {

  datatype Option<+T> = None | Some(value: T)

  datatype ToolCall = ToolCall(id: string, name: string, arguments: string)

  /** Why a user item was injected by the runtime; only the constructors the
      compaction pipeline itself writes are named. */
  datatype SyntheticReason =
    | CompactionMeta
    | SystemReminder
    | ProjectInstructions
    | OtherReason(tag: string)

  datatype Part = TextPart(text: string) | ImagePart(url: string)

  datatype Item =
    | System(content: string)
    | User(parts: seq<Part>, reason: Option<SyntheticReason>)
    | Assistant(content: string, calls: seq<ToolCall>)
    | ToolResult(callId: string, content: string, images: seq<string>)
    | BackendToolCall(summary: string)
    | Reasoning(text: string, encrypted: string)

  /** The ids an assistant item declares. */
  function CallIds(calls: seq<ToolCall>): set<string> {
    set c | c in calls :: c.id
  }

  /** The call ids answered by the tool results of `items`. */
  function ResultIds(items: seq<Item>): set<string> {
    set r | r in items && r.ToolResult? :: r.callId
  }

  predicate AllResults(items: seq<Item>) {
    forall i | 0 <= i < |items| :: items[i].ToolResult?
  }

  /** `items` does not begin with a tool result, so no run reaches into it. */
  predicate StartsFresh(items: seq<Item>) {
    items == [] || !items[0].ToolResult?
  }

  /** Length of the contiguous run of tool results that `items` begins with. */
  function ResultRun(items: seq<Item>): (n: nat)
    ensures n <= |items|
    ensures AllResults(items[..n])
    ensures StartsFresh(items[n..])
  {
    if items == [] || !items[0].ToolResult? then 0
    else
      var n := 1 + ResultRun(items[1..]);
      assert items[..n] == [items[0]] + items[1..][..n - 1];
      n
  }

  /** A run is found back when it is followed by something that is not a result. */
  lemma {:induction false} ResultRunOfConcat(run: seq<Item>, rest: seq<Item>)
    requires AllResults(run) && StartsFresh(rest)
    ensures ResultRun(run + rest) == |run|
    ensures (run + rest)[..|run|] == run && (run + rest)[|run|..] == rest
  {
    if run == [] {
      assert run + rest == rest;
    } else {
      assert (run + rest)[1..] == run[1..] + rest;
      ResultRunOfConcat(run[1..], rest);
    }
  }
}
