/**
 * The conversation-history store (`ConversationHistoryRepository`). Its
 * contract is given by the Spring Data derived-query names: filter by user,
 * newest first; filter by conversation, oldest first; delete by
 * conversation, returning how many rows went. The queries are functions of
 * the stored rows; the store itself is a class whose methods change them.
 */
module Histories {
  import opened Entities
  import opened Ordering

  /** The rows that satisfy `keep`, in their stored order. */
  function Select(s: seq<HistoryRecord>, keep: HistoryRecord -> bool): (r: seq<HistoryRecord>)
    ensures |r| <= |s|
    ensures forall h :: h in r ==> h in s && keep(h)
    ensures forall h :: multiset(r)[h] == if keep(h) then multiset(s)[h] else 0
  {
    if s == [] then []
    else
      assert s == [s[0]] + s[1..];
      (if keep(s[0]) then [s[0]] else []) + Select(s[1..], keep)
  }

  function OfUser(userId: nat): HistoryRecord -> bool {
    (h: HistoryRecord) => h.userId == userId
  }

  function InConversation(conversationId: string): HistoryRecord -> bool {
    (h: HistoryRecord) => h.conversationId == conversationId
  }

  function OutsideConversation(conversationId: string): HistoryRecord -> bool {
    (h: HistoryRecord) => h.conversationId != conversationId
  }

  /** No two rows share an identity value. */
  predicate DistinctIds(s: seq<HistoryRecord>) {
    forall i, j :: 0 <= i < j < |s| ==> s[i].id != s[j].id
  }

  /** Distinct ids of a row followed by others: the others' ids are distinct and none is the row's. */
  lemma DistinctIdsCons(x: HistoryRecord, t: seq<HistoryRecord>)
    ensures DistinctIds([x] + t) <==> DistinctIds(t) && forall h :: h in t ==> h.id != x.id
  {
    var r := [x] + t;
    assert forall j :: 0 < j < |r| ==> r[j] == t[j - 1];
    if DistinctIds(r) {
      forall h | h in t ensures h.id != x.id {
        var k :| 0 <= k < |t| && t[k] == h;
        assert r[0] == x && r[k + 1] == h && 0 < k + 1 < |r|;
      }
      forall i, j | 0 <= i < j < |t| ensures t[i].id != t[j].id {
        assert r[i + 1] == t[i] && r[j + 1] == t[j];
      }
    }
    if DistinctIds(t) && forall h :: h in t ==> h.id != x.id {
      forall i, j | 0 <= i < j < |r| ensures r[i].id != r[j].id {
        assert t[j - 1] in t;
      }
    }
  }

  /** Filtering rows keeps their identity values distinct. */
  lemma {:induction false} SelectKeepsDistinctIds(s: seq<HistoryRecord>, keep: HistoryRecord -> bool)
    requires DistinctIds(s)
    ensures DistinctIds(Select(s, keep))
  {
    if s != [] {
      assert s == [s[0]] + s[1..];
      DistinctIdsCons(s[0], s[1..]);
      SelectKeepsDistinctIds(s[1..], keep);
      var rest := Select(s[1..], keep);
      if keep(s[0]) {
        assert Select(s, keep) == [s[0]] + rest;
        DistinctIdsCons(s[0], rest);
      } else {
        assert Select(s, keep) == rest;
      }
    }
  }

  /** `findByUserIdOrderByTimestampDesc`: exactly the user's rows, newest first. */
  function FindByUserIdOrderByTimestampDesc(records: seq<HistoryRecord>, userId: nat): (r: seq<HistoryRecord>)
    ensures forall h :: multiset(r)[h] == if h.userId == userId then multiset(records)[h] else 0
    ensures forall h :: h in r <==> h in records && h.userId == userId
    ensures Sorted(r, true)
  {
    var r := SortByTimestamp(Select(records, OfUser(userId)), true);
    assert forall h :: h in r <==> h in multiset(r);
    r
  }

  /** `findByConversationIdOrderByTimestampAsc`: exactly the conversation's rows, oldest first. */
  function FindByConversationIdOrderByTimestampAsc(records: seq<HistoryRecord>, conversationId: string): (r: seq<HistoryRecord>)
    ensures forall h :: multiset(r)[h] == if h.conversationId == conversationId then multiset(records)[h] else 0
    ensures forall h :: h in r <==> h in records && h.conversationId == conversationId
    ensures Sorted(r, false)
  {
    var r := SortByTimestamp(Select(records, InConversation(conversationId)), false);
    assert forall h :: h in r <==> h in multiset(r);
    r
  }

  /** The table behind the repository: its rows and the next identity value. */
  class ConversationHistoryRepository {
    var records: seq<HistoryRecord>
    var nextId: nat

    /**
     * Every stored row has an id below the next one to be handed out, and
     * no two rows share an id.
     */
    ghost predicate Valid()
      reads this
    {
      && (forall h :: h in records ==> h.id < nextId)
      && DistinctIds(records)
    }

    constructor ()
      ensures Valid()
      ensures records == [] && nextId == 0
    {
      records := [];
      nextId := 0;
    }

    /** `save` of a new row: the database assigns the next identity value. */
    method Save(h: HistoryRecord) returns (saved: HistoryRecord)
      requires Valid()
      modifies this
      ensures Valid()
      ensures saved == h.(id := old(nextId))
      ensures forall x :: x in old(records) ==> x.id != saved.id
      ensures records == old(records) + [saved]
      ensures nextId == old(nextId) + 1
    {
      saved := h.(id := nextId);
      records := records + [saved];
      nextId := nextId + 1;
    }

    /**
     * `deleteByConversationId`: removes every row of the conversation,
     * keeps the others in order, and returns how many rows went.
     */
    method DeleteByConversationId(conversationId: string) returns (count: nat)
      requires Valid()
      modifies this
      ensures Valid()
      ensures records == Select(old(records), OutsideConversation(conversationId))
      ensures count == |Select(old(records), InConversation(conversationId))|
      ensures nextId == old(nextId)
    {
      var kept := Select(records, OutsideConversation(conversationId));
      DeleteCountsRemoved(records, conversationId);
      SelectKeepsDistinctIds(records, OutsideConversation(conversationId));
      count := |records| - |kept|;
      records := kept;
    }
  }

  /** After a delete no row of the conversation is left. */
  lemma DeleteLeavesNone(records: seq<HistoryRecord>, conversationId: string)
    ensures forall h :: h in Select(records, OutsideConversation(conversationId)) ==> h.conversationId != conversationId
  {
  }

  /** A delete leaves every row of the other conversations, as many times as it was stored. */
  lemma DeleteKeepsOthers(records: seq<HistoryRecord>, conversationId: string)
    ensures forall h: HistoryRecord :: h.conversationId != conversationId ==>
      multiset(Select(records, OutsideConversation(conversationId)))[h] == multiset(records)[h]
  {
  }

  /** The count a delete returns is the number of rows that were in the conversation. */
  lemma {:induction false} DeleteCountsRemoved(records: seq<HistoryRecord>, conversationId: string)
    ensures |records| - |Select(records, OutsideConversation(conversationId))|
         == |Select(records, InConversation(conversationId))|
  {
    if records != [] {
      DeleteCountsRemoved(records[1..], conversationId);
    }
  }
}
