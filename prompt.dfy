/**
 * The prompt loop the interactive scripts repeat: `while True: r =
 * input(...).strip(); if <r is acceptable>: break; print(<error>)`. The
 * replies typed are given in order; when they run out, `input` raises
 * `EOFError`, which no script catches.
 */
module Prompt {
  import opened Wrappers

  /** Index of the first reply `parse` accepts, or the number of replies when none does. */
  function FirstAccepted<A>(replies: seq<string>, parse: string -> Option<A>): (k: nat)
    ensures k <= |replies|
    ensures k < |replies| ==> parse(replies[k]).Some?
    ensures forall j :: 0 <= j < k ==> parse(replies[j]).None?
  {
    if |replies| == 0 then 0
    else if parse(replies[0]).Some? then 0
    else 1 + FirstAccepted(replies[1..], parse)
  }

  /** What the prompt settles on; `None` when the replies run out first. */
  function Asked<A>(replies: seq<string>, parse: string -> Option<A>): Option<A> {
    var k := FirstAccepted(replies, parse);
    if k == |replies| then None else parse(replies[k])
  }

  /** The first reply accepted is the one every earlier reply leaves unanswered. */
  lemma FirstAcceptedIs<A>(replies: seq<string>, parse: string -> Option<A>, k: nat)
    requires k <= |replies| && (k < |replies| ==> parse(replies[k]).Some?)
    requires forall j :: 0 <= j < k ==> parse(replies[j]).None?
    ensures FirstAccepted(replies, parse) == k
  {
    if k > 0 {
      assert parse(replies[0]).None?;
      FirstAcceptedIs(replies[1..], parse, k - 1);
    }
  }

  /** The prompt returns `a` exactly when some reply means `a` and every reply before it was refused. */
  lemma AskedSpec<A>(replies: seq<string>, parse: string -> Option<A>, a: A)
    ensures Asked(replies, parse) == Some(a) <==>
      exists k :: 0 <= k < |replies| && parse(replies[k]) == Some(a) && forall j :: 0 <= j < k ==> parse(replies[j]).None?
  {
    if exists k :: 0 <= k < |replies| && parse(replies[k]) == Some(a) && forall j :: 0 <= j < k ==> parse(replies[j]).None? {
      var k :| 0 <= k < |replies| && parse(replies[k]) == Some(a) && forall j :: 0 <= j < k ==> parse(replies[j]).None?;
      FirstAcceptedIs(replies, parse, k);
    }
  }

  /** The loop itself: `used` replies are read, the last of them the accepted one. */
  method Ask<A>(replies: seq<string>, parse: string -> Option<A>) returns (answer: Option<A>, used: nat)
    ensures answer == Asked(replies, parse)
    ensures answer.Some? ==> used == FirstAccepted(replies, parse) + 1
    ensures answer.None? ==> used == |replies|
  {
    used := 0;
    while used < |replies|
      invariant used <= |replies|
      invariant forall j :: 0 <= j < used ==> parse(replies[j]).None?
    {
      var reply := replies[used];
      used := used + 1;
      if parse(reply).Some? {
        FirstAcceptedIs(replies, parse, used - 1);
        return parse(reply), used;
      }
    }
    FirstAcceptedIs(replies, parse, |replies|);
    answer := None;
  }
}
