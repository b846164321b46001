/**
 * `set_workload_tag(tag_name)`: a scope that sets the service's workload tag,
 * runs its body, and resets the tag whether the body returns or raises.
 */
module Utils {
  import opened Wrappers
  import opened EarthEngine

  /** The calls a tagged scope makes around the calls of its body. */
  function Scope(tag: string, body: seq<Event>): seq<Event>
  {
    [SetWorkloadTag(tag)] + body + [ResetWorkloadTag]
  }

  /**
   * Runs a body inside the tag scope. The body's calls are `body` and how it
   * ended is `outcome`; the scope returns that outcome unchanged, so a raised
   * exception reaches the caller as it was raised.
   */
  method WithWorkloadTag<T>(ee: Session, tag: string, body: seq<Event>, outcome: Result<T, string>)
    returns (r: Result<T, string>)
    requires ee.Valid()
    modifies ee
    ensures ee.Valid()
    ensures ee.trace == old(ee.trace) + Scope(tag, body)
    ensures ee.workloadTag == None
    ensures r == outcome
  {
    ee.SetTag(tag);
    ee.Perform(body);
    // the `finally` clause: runs on both outcomes
    ee.ResetTag();
    r := outcome;
  }

  /** Whether `e` touches the workload tag. */
  predicate IsTagCall(e: Event)
  {
    e.SetWorkloadTag? || e.ResetWorkloadTag?
  }

  /** The number of calls in `events` that set the tag (`setting`) or reset it (`!setting`). */
  function CountTagCalls(events: seq<Event>, setting: bool): nat
    decreases |events|
  {
    if |events| == 0 then 0
    else
      var counted := if setting then events[0].SetWorkloadTag? else events[0].ResetWorkloadTag?;
      (if counted then 1 else 0) + CountTagCalls(events[1..], setting)
  }

  lemma {:induction false} CountTagCallsConcat(a: seq<Event>, b: seq<Event>, setting: bool)
    ensures CountTagCalls(a + b, setting) == CountTagCalls(a, setting) + CountTagCalls(b, setting)
    decreases |a|
  {
    if |a| == 0 {
      assert a + b == b;
    } else {
      assert (a + b)[0] == a[0] && (a + b)[1..] == a[1..] + b;
      CountTagCallsConcat(a[1..], b, setting);
    }
  }

  lemma {:induction false} NoTagCalls(body: seq<Event>, setting: bool)
    requires forall i :: 0 <= i < |body| ==> !IsTagCall(body[i])
    ensures CountTagCalls(body, setting) == 0
    decreases |body|
  {
    if |body| > 0 {
      NoTagCalls(body[1..], setting);
    }
  }

  /**
   * For a body that does not touch the tag itself: the scope sets the tag
   * exactly once, as its first call, and resets it exactly once, as its last.
   */
  lemma ScopeSetsAndResetsOnce(tag: string, body: seq<Event>)
    requires forall i :: 0 <= i < |body| ==> !IsTagCall(body[i])
    ensures var s := Scope(tag, body);
      && s[0] == SetWorkloadTag(tag) && s[|s| - 1] == ResetWorkloadTag
      && CountTagCalls(s, true) == 1 && CountTagCalls(s, false) == 1
  {
    var s := Scope(tag, body);
    NoTagCalls(body, true);
    NoTagCalls(body, false);
    CountTagCallsConcat([SetWorkloadTag(tag)] + body, [ResetWorkloadTag], true);
    CountTagCallsConcat([SetWorkloadTag(tag)] + body, [ResetWorkloadTag], false);
    CountTagCallsConcat([SetWorkloadTag(tag)], body, true);
    CountTagCallsConcat([SetWorkloadTag(tag)], body, false);
  }

  lemma {:induction false} TagKeptBy(tag: Option<string>, body: seq<Event>)
    requires forall i :: 0 <= i < |body| ==> !IsTagCall(body[i])
    ensures TagAfter(tag, body) == tag
    decreases |body|
  {
    if |body| > 0 {
      TagKeptBy(tag, body[1..]);
    }
  }

  /** Whatever came before and whatever the body does, no tag is in force after the scope. */
  lemma NoTagAfterScope(before: seq<Event>, tag: string, body: seq<Event>)
    ensures TagAfter(None, before + Scope(tag, body)) == None
  {
    var s := Scope(tag, body);
    assert before + s == (before + [SetWorkloadTag(tag)] + body) + [ResetWorkloadTag];
    TagAfterConcat(None, before + [SetWorkloadTag(tag)] + body, [ResetWorkloadTag]);
  }

  /**
   * Every call the body makes is made under `tag`, whatever came before,
   * when the body does not touch the tag itself.
   */
  lemma BodyRunsUnderTag(before: seq<Event>, tag: string, body: seq<Event>, k: nat)
    requires forall i :: 0 <= i < |body| ==> !IsTagCall(body[i])
    requires k < |body|
    ensures var trace := before + Scope(tag, body);
      |before| + 1 + k < |trace| && trace[|before| + 1 + k] == body[k]
      && TagAt(trace, |before| + 1 + k) == Some(tag)
  {
    var trace := before + Scope(tag, body);
    var i := |before| + 1 + k;
    assert trace[..i] == (before + [SetWorkloadTag(tag)]) + body[..k];
    TagAfterConcat(None, before + [SetWorkloadTag(tag)], body[..k]);
    TagAfterConcat(None, before, [SetWorkloadTag(tag)]);
    TagKeptBy(Some(tag), body[..k]);
  }
}
