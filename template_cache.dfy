/** The local cache of recognition templates and get_template_json
    (imgProAPP/views.py:219-245). The main server is reduced to the sequence
    of replies it gives to successive requests for the template. */
module TemplateCache {
  import opened Wrappers
  import opened JsonValue
  import opened Models

  /** The index of the first non-empty reply: the one the polling loop
      stops at. */
  function FirstTruthy(replies: seq<Json>): (i: nat)
    requires exists k :: 0 <= k < |replies| && Truthy(replies[k])
    ensures i < |replies| && Truthy(replies[i])
    ensures forall j :: 0 <= j < i ==> !Truthy(replies[j])
  {
    if Truthy(replies[0]) then 0
    else
      assert exists k :: 0 <= k < |replies[1..]| && Truthy(replies[1..][k]) by {
        var k :| 0 <= k < |replies| && Truthy(replies[k]);
        assert replies[1..][k - 1] == replies[k];
      }
      FirstTruthy(replies[1..]) + 1
  }

  /** The id is given and not empty (`if not template_id`). */
  predicate Present(templateId: Option<string>) {
    templateId.Some? && templateId.value != ""
  }

  /** The request reaches the polling loop: a present id, not cached, and
      the insert did not conflict. Then some reply must be non-empty. */
  predicate Polls(entries: map<string, ScanTemplate>, templateId: Option<string>, conflict: bool) {
    Present(templateId) && templateId.value !in entries && !conflict
  }

  predicate Answers(replies: seq<Json>) {
    exists k :: 0 <= k < |replies| && Truthy(replies[k])
  }

  /** What one call of get_template_json returns, the cache it leaves and
      how many requests it sends. `Null` is the `None` it returns. */
  datatype Reply = Reply(result: Outcome<Json>, entries: map<string, ScanTemplate>, fetches: nat)

  /** get_template_json as a function of the cache, the id, whether the
      insert conflicts with another process's, and the server's replies.
      A miss inserts a pending entry (no json, `template_pages` left at its
      default), polls until a reply is non-empty and stores that reply's
      `data`; a reply without `data` raises and leaves the pending entry. */
  function Fill(entries: map<string, ScanTemplate>, templateId: Option<string>, conflict: bool, replies: seq<Json>): Reply
    requires Polls(entries, templateId, conflict) ==> Answers(replies)
  {
    if !Present(templateId) then Reply(Ok(Null), entries, 0)
    else if templateId.value in entries then Reply(Ok(entries[templateId.value].templateJson), entries, 0)
    else if conflict then Reply(Ok(Null), entries, 0)
    else
      var id := templateId.value;
      var i := FirstTruthy(replies);
      match Get(replies[i], "data")
      case None => Reply(Raised, entries[id := ScanTemplate(id, Null, DefaultTemplatePages)], i + 1)
      case Some(d) => Reply(Ok(d), entries[id := ScanTemplate(id, d, DefaultTemplatePages)], i + 1)
  }

  /** A call adds at most the one entry for its id and changes no other
      entry; it sends requests only when it had to insert. */
  lemma FillTouchesOneEntry(entries: map<string, ScanTemplate>, templateId: Option<string>, conflict: bool, replies: seq<Json>)
    requires Polls(entries, templateId, conflict) ==> Answers(replies)
    ensures var r := Fill(entries, templateId, conflict, replies);
            && (forall t :: t in entries ==> t in r.entries)
            && (forall t :: t in r.entries && !(Present(templateId) && t == templateId.value) ==>
                  t in entries && r.entries[t] == entries[t])
            && (r.fetches > 0 <==> Polls(entries, templateId, conflict))
            && (r.entries != entries ==> Polls(entries, templateId, conflict))
  {
  }

  /** An absent or empty id returns None and leaves the cache alone. */
  lemma NoIdNoTemplate(entries: map<string, ScanTemplate>, templateId: Option<string>, conflict: bool, replies: seq<Json>)
    requires !Present(templateId)
    ensures Fill(entries, templateId, conflict, replies) == Reply(Ok(Null), entries, 0)
  {
  }

  /** A fill returns the `data` of the first non-empty reply, after exactly
      as many requests as it took to get it. */
  lemma FillReturnsFirstAnswer(entries: map<string, ScanTemplate>, id: string, replies: seq<Json>, k: nat)
    requires id != "" && id !in entries
    requires k < |replies| && Truthy(replies[k]) && forall j :: 0 <= j < k ==> !Truthy(replies[j])
    ensures var r := Fill(entries, Some(id), false, replies);
            && r.fetches == k + 1
            && (Get(replies[k], "data").Some? ==> r.result == Ok(Get(replies[k], "data").value))
            && (Get(replies[k], "data").None? ==> r.result == Raised)
            && id in r.entries && r.entries[id].templatePages == DefaultTemplatePages
  {
    assert FirstTruthy(replies) == k;
  }

  /** Once filled, the template is served from the cache: a later call for
      the same id returns the same json, sends nothing and changes nothing,
      whatever the server would say and whether or not an insert would
      conflict. */
  lemma FillThenHit(entries: map<string, ScanTemplate>, id: string, replies: seq<Json>, conflict2: bool, replies2: seq<Json>)
    requires id != "" && id !in entries && Answers(replies)
    ensures var r1 := Fill(entries, Some(id), false, replies);
            var r2 := Fill(r1.entries, Some(id), conflict2, replies2);
            && r2.fetches == 0 && r2.entries == r1.entries
            && (r1.result.Ok? ==> r2.result == r1.result)
            && (r1.result.Raised? ==> r2.result == Ok(Null))
  {
  }

  /** The local ScanTemplate table, keyed by its unique `template_id`. */
  class TemplateTable {
    var entries: map<string, ScanTemplate>

    constructor ()
      ensures entries == map[]
    {
      entries := map[];
    }

    /** get_template_json. `conflict` says that the `objects.create` insert
      fails with IntegrityError (another process inserted the id first);
      `replies` are the server's answers to successive requests. */
    method GetTemplateJson(templateId: Option<string>, conflict: bool, replies: seq<Json>)
      returns (result: Outcome<Json>, fetches: nat)
      requires Polls(entries, templateId, conflict) ==> Answers(replies)
      modifies this
      ensures Reply(result, entries, fetches) == Fill(old(entries), templateId, conflict, replies)
    {
      if templateId.None? || templateId.value == "" {
        return Ok(Null), 0;
      }
      var id := templateId.value;
      if id in entries {
        return Ok(entries[id].templateJson), 0;
      }
      if conflict {
        return Ok(Null), 0;
      }
      entries := entries[id := ScanTemplate(id, Null, DefaultTemplatePages)];
      var i := 0;
      var resp := replies[i];
      fetches := 1;
      while !Truthy(resp)
        invariant 0 <= i <= FirstTruthy(replies)
        invariant resp == replies[i] && fetches == i + 1
        decreases FirstTruthy(replies) - i
      {
        i := i + 1;
        resp := replies[i];
        fetches := fetches + 1;
      }
      var data := Get(resp, "data");
      if data.None? {
        return Raised, fetches;
      }
      entries := entries[id := entries[id].(templateJson := data.value)];
      result := Ok(data.value);
    }
  }
}
