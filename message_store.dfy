/** The message collection that the handlers of server/controllers/messageController.js
    query and update: the records, MongoDB-style equality queries over their fields, and
    the three writes the handlers issue (create, update-many, update-by-id). */
module MessageStore {
  import opened Wrappers

  /** One stored message. The store assigns `id`; `seen` starts false. */
  datatype Message = Message(id: nat, senderId: string, receiverId: string,
                             text: Option<string>, image: Option<string>, seen: bool)

  /** A value a query compares a field against. */
  datatype Value = Str(s: string) | Flag(b: bool)

  /** The field called `name` of a stored record, or None when the record has no field of
      that name. A record carries exactly the fields it was created with; field names are
      case-sensitive, so `senderID` is not `senderId`. */
  function Field(m: Message, name: string): Option<Value>
  {
    if name == "senderId" then Some(Str(m.senderId))
    else if name == "receiverId" then Some(Str(m.receiverId))
    else if name == "seen" then Some(Flag(m.seen))
    else if name == "text" && m.text.Some? then Some(Str(m.text.value))
    else if name == "image" && m.image.Some? then Some(Str(m.image.value))
    else None
  }

  datatype Condition = Condition(field: string, value: Value)

  /** A query document: `Where(cs)` is `{f1: v1, f2: v2, …}` (every equality must hold),
      `AnyOf(bs)` is `{$or: [{…}, {…}]}` (some branch must hold). */
  datatype Query = Where(conditions: seq<Condition>) | AnyOf(branches: seq<seq<Condition>>)

  /** An equality condition on a field the record lacks never holds. */
  predicate HoldsAll(m: Message, cs: seq<Condition>)
  {
    forall i :: 0 <= i < |cs| ==> Field(m, cs[i].field) == Some(cs[i].value)
  }

  predicate Matches(m: Message, q: Query)
  {
    match q
    case Where(cs) => HoldsAll(m, cs)
    case AnyOf(bs) => exists i :: 0 <= i < |bs| && HoldsAll(m, bs[i])
  }

  /** `Message.find(q)`: the matching records, in store order. */
  function Find(s: seq<Message>, q: Query): (r: seq<Message>)
    ensures |r| <= |s|
    ensures forall m :: m in r <==> m in s && Matches(m, q)
  {
    if s == [] then []
    else (if Matches(s[0], q) then [s[0]] else []) + Find(s[1..], q)
  }

  /** Each matching record is found as often as it is stored, and nothing else is found, so
      the result's length is the number of matching records. */
  lemma {:induction false} FindMultiplicity(s: seq<Message>, q: Query)
    ensures forall m :: multiset(Find(s, q))[m] == if Matches(m, q) then multiset(s)[m] else 0
  {
    if s != [] {
      FindMultiplicity(s[1..], q);
      assert s == [s[0]] + s[1..];
    }
  }

  /** A query that no record of the store satisfies finds nothing. */
  lemma {:induction false} FindNoMatch(s: seq<Message>, q: Query)
    requires forall i :: 0 <= i < |s| ==> !Matches(s[i], q)
    ensures Find(s, q) == []
  {
    if s != [] {
      FindNoMatch(s[1..], q);
    }
  }

  /** `Message.updateMany(q, {seen: true})`. */
  function SetSeenWhere(s: seq<Message>, q: Query): (r: seq<Message>)
    ensures |r| == |s|
  {
    seq(|s|, i requires 0 <= i < |s| => if Matches(s[i], q) then s[i].(seen := true) else s[i])
  }

  /** The position of the first record whose id is `id`. */
  function IndexOfId(s: seq<Message>, id: nat): (r: Option<nat>)
    ensures r.Some? ==> r.value < |s| && s[r.value].id == id
    ensures r.Some? ==> forall j :: 0 <= j < r.value ==> s[j].id != id
    ensures r.None? ==> forall j :: 0 <= j < |s| ==> s[j].id != id
  {
    if s == [] then None
    else if s[0].id == id then Some(0)
    else match IndexOfId(s[1..], id)
         case None => None
         case Some(k) => Some(k + 1)
  }

  /** `Message.findByIdAndUpdate(id, {seen: true})`: the first record with that id, if any,
      becomes seen. */
  function SetSeenById(s: seq<Message>, id: nat): (r: seq<Message>)
    ensures |r| == |s|
  {
    match IndexOfId(s, id)
    case None => s
    case Some(k) => s[k := s[k].(seen := true)]
  }

  ghost predicate DistinctIds(s: seq<Message>)
  {
    forall i, j :: 0 <= i < j < |s| ==> s[i].id != s[j].id
  }

  /** `after` keeps every record of `before` in place with the same id, parties, text and
      image, and may only turn `seen` from false to true; new records may follow. */
  ghost predicate OnlySeenRises(before: seq<Message>, after: seq<Message>)
  {
    |before| <= |after| &&
    forall i :: 0 <= i < |before| ==>
      after[i].(seen := before[i].seen) == before[i] && (before[i].seen ==> after[i].seen)
  }

  /** The store itself. Messages are never deleted, so `nextId` (one past every id handed
      out) keeps ids unique. */
  class MessageCollection {
    var messages: seq<Message>
    var nextId: nat

    ghost predicate Valid()
      reads this
    {
      DistinctIds(messages) && forall i :: 0 <= i < |messages| ==> messages[i].id < nextId
    }

    constructor ()
      ensures Valid() && messages == []
    {
      messages := [];
      nextId := 0;
    }

    /** `Message.create({senderId, receiverId, text, image})`: a new unseen record under a
        fresh id, appended. */
    method Create(senderId: string, receiverId: string, text: Option<string>, image: Option<string>)
      returns (m: Message)
      requires Valid()
      modifies this
      ensures Valid()
      ensures m == Message(old(nextId), senderId, receiverId, text, image, false)
      ensures messages == old(messages) + [m]
      ensures forall i :: 0 <= i < |old(messages)| ==> old(messages)[i].id != m.id
    {
      m := Message(nextId, senderId, receiverId, text, image, false);
      messages := messages + [m];
      nextId := nextId + 1;
    }

    method UpdateMany(q: Query)
      requires Valid()
      modifies this
      ensures Valid()
      ensures messages == SetSeenWhere(old(messages), q) && nextId == old(nextId)
      ensures OnlySeenRises(old(messages), messages)
    {
      messages := SetSeenWhere(messages, q);
    }

    method FindByIdAndUpdate(id: nat)
      requires Valid()
      modifies this
      ensures Valid()
      ensures messages == SetSeenById(old(messages), id) && nextId == old(nextId)
      ensures OnlySeenRises(old(messages), messages)
    {
      messages := SetSeenById(messages, id);
    }
  }

  /** Updating twice with the same query leaves the store as updating once. */
  lemma SetSeenWhereIdempotent(s: seq<Message>, q: Query)
    ensures SetSeenWhere(SetSeenWhere(s, q), q) == SetSeenWhere(s, q)
  {
    var once := SetSeenWhere(s, q);
    var twice := SetSeenWhere(once, q);
    forall i | 0 <= i < |s|
      ensures twice[i] == once[i]
    {
      if !Matches(s[i], q) {
        assert once[i] == s[i];
      }
    }
  }

  /** With unique ids, `findByIdAndUpdate` turns exactly the record with that id seen and
      leaves every other record as it was; with no such record the store is unchanged. */
  lemma SetSeenByIdExactlyThatRecord(s: seq<Message>, id: nat)
    requires DistinctIds(s)
    ensures forall i :: 0 <= i < |s| ==>
      SetSeenById(s, id)[i] == if s[i].id == id then s[i].(seen := true) else s[i]
    ensures (forall i :: 0 <= i < |s| ==> s[i].id != id) ==> SetSeenById(s, id) == s
  {
  }

  lemma SetSeenByIdIdempotent(s: seq<Message>, id: nat)
    requires DistinctIds(s)
    ensures SetSeenById(SetSeenById(s, id), id) == SetSeenById(s, id)
  {
    SetSeenByIdExactlyThatRecord(s, id);
    var once := SetSeenById(s, id);
    assert DistinctIds(once);
    SetSeenByIdExactlyThatRecord(once, id);
  }
}
