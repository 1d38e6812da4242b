/**
 * `HistoryController`: the conversation list of the logged-in user (one
 * entry per conversation, its opening turn, most recent conversation
 * first) and the turns of one conversation.
 */
module HistoryApi {
  import opened Lang
  import opened Entities
  import opened Ordering
  import opened Histories
  import opened Users

  /** No two entries share a conversation id. */
  predicate OnePerConversation(groups: seq<HistoryRecord>) {
    forall i, j :: 0 <= i < j < |groups| ==> groups[i].conversationId != groups[j].conversationId
  }

  /**
   * One step of `groupingBy(conversationId, minBy(timestamp))`: `h` joins
   * the entry of its conversation and replaces it only when strictly
   * earlier (`BinaryOperator.minBy` keeps the element it already has on a
   * tie); a conversation seen for the first time gets a new entry at the end.
   */
  function Absorb(groups: seq<HistoryRecord>, h: HistoryRecord): seq<HistoryRecord> {
    if groups == [] then [h]
    else if groups[0].conversationId == h.conversationId then
      [if h.timestamp < groups[0].timestamp then h else groups[0]] + groups[1..]
    else
      [groups[0]] + Absorb(groups[1..], h)
  }

  /** Absorbing keeps each record it had or takes `h`; it invents nothing. */
  lemma {:induction false} AbsorbMembers(groups: seq<HistoryRecord>, h: HistoryRecord)
    ensures |Absorb(groups, h)| >= 1
    ensures forall g :: g in Absorb(groups, h) ==> g in groups || g == h
  {
    if groups != [] && groups[0].conversationId != h.conversationId {
      AbsorbMembers(groups[1..], h);
    }
  }

  lemma IdsOfCons(x: HistoryRecord, t: seq<HistoryRecord>)
    ensures ConversationIdsOf([x] + t) == {x.conversationId} + ConversationIdsOf(t)
  {
  }

  /** Absorbing adds the conversation of `h` and no other. */
  lemma {:induction false} AbsorbIds(groups: seq<HistoryRecord>, h: HistoryRecord)
    ensures ConversationIdsOf(Absorb(groups, h)) == ConversationIdsOf(groups) + {h.conversationId}
  {
    if groups == [] {
      assert ConversationIdsOf([h]) == {h.conversationId} by { IdsOfCons(h, []); }
    } else {
      assert groups == [groups[0]] + groups[1..];
      IdsOfCons(groups[0], groups[1..]);
      var kept := if h.timestamp < groups[0].timestamp then h else groups[0];
      if groups[0].conversationId == h.conversationId {
        IdsOfCons(kept, groups[1..]);
      } else {
        AbsorbIds(groups[1..], h);
        IdsOfCons(groups[0], Absorb(groups[1..], h));
      }
    }
  }

  /** Absorbing keeps one entry per conversation. */
  lemma {:induction false} AbsorbKeepsOnePerConversation(groups: seq<HistoryRecord>, h: HistoryRecord)
    requires OnePerConversation(groups)
    ensures OnePerConversation(Absorb(groups, h))
  {
    if groups != [] && groups[0].conversationId != h.conversationId {
      assert groups == [groups[0]] + groups[1..];
      AbsorbKeepsOnePerConversation(groups[1..], h);
      AbsorbIds(groups[1..], h);
      assert groups[0].conversationId !in ConversationIdsOf(groups[1..]);
      var r := Absorb(groups, h);
      forall j | 0 < j < |r| ensures r[0].conversationId != r[j].conversationId {
        assert r[j] in Absorb(groups[1..], h);
        assert r[j].conversationId in ConversationIdsOf(Absorb(groups[1..], h));
      }
    }
  }

  /**
   * After absorbing, each entry is no later than `h` and than every entry
   * before it of the same conversation; on a tie with `h` the entry it
   * already had stays.
   */
  lemma {:induction false} AbsorbKeepsEarliest(groups: seq<HistoryRecord>, h: HistoryRecord)
    requires OnePerConversation(groups)
    ensures forall g :: g in Absorb(groups, h) && g.conversationId == h.conversationId ==> g.timestamp <= h.timestamp
    ensures forall g, x ::
      g in Absorb(groups, h) && x in groups && x.conversationId == g.conversationId ==> g.timestamp <= x.timestamp
    ensures forall g :: g in groups && g.conversationId == h.conversationId && g.timestamp <= h.timestamp ==>
      g in Absorb(groups, h)
  {
    if groups != [] {
      assert groups == [groups[0]] + groups[1..];
      if groups[0].conversationId != h.conversationId {
        AbsorbKeepsEarliest(groups[1..], h);
        AbsorbMembers(groups[1..], h);
        forall g | g in groups && g.conversationId == h.conversationId
          ensures g in groups[1..]
        {
        }
      } else {
        forall g | g in groups && g.conversationId == h.conversationId
          ensures g == groups[0]
        {
          var k :| 0 <= k < |groups| && groups[k] == g;
          assert k == 0;
        }
      }
    }
  }

  /** The earliest record of every conversation among `s`, in first-seen order. */
  function GroupEarliest(s: seq<HistoryRecord>): seq<HistoryRecord> {
    if s == [] then [] else Absorb(GroupEarliest(s[..|s| - 1]), s[|s| - 1])
  }

  /**
   * Grouping yields one entry per conversation of `s`, each a record of
   * `s` and no later than any record of its conversation.
   */
  lemma {:induction false} GroupEarliestCorrect(s: seq<HistoryRecord>)
    ensures var r := GroupEarliest(s);
      && OnePerConversation(r)
      && ConversationIdsOf(r) == ConversationIdsOf(s)
      && (forall g :: g in r ==> g in s)
      && (forall g, h :: g in r && h in s && h.conversationId == g.conversationId ==> g.timestamp <= h.timestamp)
  {
    if s != [] {
      var init, last := s[..|s| - 1], s[|s| - 1];
      assert s == init + [last];
      GroupEarliestCorrect(init);
      var groups := GroupEarliest(init);
      AbsorbMembers(groups, last);
      AbsorbIds(groups, last);
      AbsorbKeepsOnePerConversation(groups, last);
      AbsorbKeepsEarliest(groups, last);
      var r := Absorb(groups, last);
      forall g, h | g in r && h in s && h.conversationId == g.conversationId
        ensures g.timestamp <= h.timestamp
      {
        if h != last {
          assert h in init;
          assert h.conversationId in ConversationIdsOf(groups);
          var x :| x in groups && x.conversationId == h.conversationId;
        }
      }
    }
  }

  /** Distinct conversation ids mean no record is listed twice and one record per id. */
  lemma {:induction false} OnePerConversationNoRepeats(s: seq<HistoryRecord>)
    requires OnePerConversation(s)
    ensures forall g :: multiset(s)[g] <= 1
    ensures forall g1, g2 :: g1 in s && g2 in s && g1.conversationId == g2.conversationId ==> g1 == g2
  {
    if s != [] {
      var init, last := s[..|s| - 1], s[|s| - 1];
      assert s == init + [last];
      OnePerConversationNoRepeats(init);
      assert last !in init;
    }
  }

  /**
   * The aggregation of `getUserHistory`: exactly one record per
   * conversation among `histories` (each a record of `histories`, none
   * twice), the earliest of its conversation, newest first.
   */
  function ConversationList(histories: seq<HistoryRecord>): (r: seq<HistoryRecord>)
    ensures forall g :: g in r ==> g in histories
    ensures ConversationIdsOf(r) == ConversationIdsOf(histories)
    ensures forall g1, g2 :: g1 in r && g2 in r && g1.conversationId == g2.conversationId ==> g1 == g2
    ensures forall g :: multiset(r)[g] <= 1
    ensures forall g, h :: g in r && h in histories && h.conversationId == g.conversationId ==> g.timestamp <= h.timestamp
    ensures Sorted(r, true)
  {
    var groups := GroupEarliest(histories);
    GroupEarliestCorrect(histories);
    OnePerConversationNoRepeats(groups);
    var r := SortByTimestamp(groups, true);
    assert forall g :: g in r <==> g in groups by {
      forall g ensures g in r <==> g in groups {
        assert g in r <==> g in multiset(r);
      }
    }
    r
  }

  /** `getUserHistory`. */
  function GetUserHistory(principal: Option<string>, users: seq<User>, records: seq<HistoryRecord>)
    : (r: Response<seq<HistoryRecord>>)
    ensures principal.None? ==> r == Response(401, None)
    ensures principal.Some? && FindByUsername(users, principal.value).None? ==> r == Response(404, Some([]))
    ensures principal.Some? && FindByUsername(users, principal.value).Some? ==>
      var userId := FindByUsername(users, principal.value).value.id;
      && r.status == 200 && r.body.Some?
      && (forall g :: g in r.body.value ==> g in records && g.userId == userId)
      && ConversationIdsOf(r.body.value) == (set h | h in records && h.userId == userId :: h.conversationId)
      && (forall g1, g2 :: g1 in r.body.value && g2 in r.body.value && g1.conversationId == g2.conversationId ==> g1 == g2)
      && (forall g :: multiset(r.body.value)[g] <= 1)
      && (forall g, h :: g in r.body.value && h in records && h.userId == userId && h.conversationId == g.conversationId
            ==> g.timestamp <= h.timestamp)
      && Sorted(r.body.value, true)
  {
    if principal.None? then Response(401, None)
    else match FindByUsername(users, principal.value)
      case None => Response(404, Some([]))
      case Some(user) =>
        var histories := FindByUserIdOrderByTimestampDesc(records, user.id);
        assert ConversationIdsOf(histories) == (set h | h in records && h.userId == user.id :: h.conversationId);
        Response(200, Some(ConversationList(histories)))
  }

  /**
   * `getConversationDetails`: every turn of the conversation, oldest first,
   * whoever asked and whoever owns it; the principal is not consulted.
   */
  function GetConversationDetails(conversationId: string, principal: Option<string>, records: seq<HistoryRecord>)
    : (r: Response<seq<HistoryRecord>>)
    ensures r.status == 200 && r.body.Some?
    ensures forall h :: h in r.body.value <==> h in records && h.conversationId == conversationId
    ensures forall h :: multiset(r.body.value)[h] == if h.conversationId == conversationId then multiset(records)[h] else 0
    ensures Sorted(r.body.value, false)
  {
    Response(200, Some(FindByConversationIdOrderByTimestampAsc(records, conversationId)))
  }
}
