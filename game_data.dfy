/** The status-code rule of `get_game_data`: status 200 returns the body,
    429 waits and asks again, anything else gives up with `None`.  The
    server's successive replies to one request are given as a sequence. */
module GameData {
  import opened Wrappers

  const StatusOk := 200
  const StatusTooManyRequests := 429

  /** One HTTP reply: its status code and, for 200, the decoded list of games. */
  datatype Reply<G> = Reply(status: int, body: seq<G>)

  /** What `get_game_data` has done once the given replies are used up. */
  datatype Fetched<G> =
    | Returned(data: Option<seq<G>>)   // the call returned this value
    | Waiting   // every reply so far was 429: the call is still sleeping and retrying

  /** The outcome of `get_game_data` over the replies the server gives in turn. */
  function GetGameData<G>(replies: seq<Reply<G>>): (r: Fetched<G>)
    ensures r.Waiting? <==> forall i :: 0 <= i < |replies| ==> replies[i].status == StatusTooManyRequests
    ensures r.Returned? && r.data.Some? ==>
      exists i :: 0 <= i < |replies| && replies[i].status == StatusOk && replies[i].body == r.data.value
  {
    if replies == [] then Waiting
    else if replies[0].status == StatusOk then Returned(Some(replies[0].body))
    else if replies[0].status == StatusTooManyRequests then GetGameData(replies[1..])
    else Returned(None)
  }

  /** `if game_data:` — a missing result and an empty list are both failures. */
  predicate Truthy<G>(data: Option<seq<G>>) {
    data.Some? && |data.value| > 0
  }

  /** `calculate_matches`: the number of games in the list. */
  function CalculateMatches<G>(games: seq<G>): nat {
    |games|
  }

  // ---------------------------------------------------------------------------
  // Lemmas

  /** The first reply whose status is not 429 decides the outcome. */
  lemma {:induction false} FirstDecisiveReply<G>(replies: seq<Reply<G>>, k: nat)
    requires k < |replies| && replies[k].status != StatusTooManyRequests
    requires forall j :: 0 <= j < k ==> replies[j].status == StatusTooManyRequests
    ensures GetGameData(replies) ==
      if replies[k].status == StatusOk then Returned(Some(replies[k].body)) else Returned(None)
  {
    if k > 0 {
      FirstDecisiveReply(replies[1..], k - 1);
    }
  }

  /** Replies after the decisive one are never requested: they do not change the outcome. */
  lemma {:induction false} LaterRepliesIgnored<G>(replies: seq<Reply<G>>, later: seq<Reply<G>>)
    requires GetGameData(replies).Returned?
    ensures GetGameData(replies + later) == GetGameData(replies)
  {
    if replies[0].status == StatusTooManyRequests {
      assert (replies + later)[1..] == replies[1..] + later;
      LaterRepliesIgnored(replies[1..], later);
    }
  }
}
