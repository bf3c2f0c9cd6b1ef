/**
 * The moderation list: the pending requests an administrator accepts or
 * denies one at a time. A request leaves the list only when the server's
 * answer arrives and can be read; on any failure the list stays as it was.
 */
module RequestsPage {
  import opened Wrappers
  import opened Seqs
  import opened Records

  /** The predicate `req => req._id !== id` of the two handlers' filter. */
  function OtherThan(id: string): EventRecord -> bool
  {
    (r: EventRecord) => r.id != id
  }

  /** `prev.filter((req) => req._id !== id)`. */
  function RemoveById(reqs: seq<EventRecord>, id: string): (r: seq<EventRecord>)
    ensures |r| <= |reqs|
    ensures forall i :: 0 <= i < |r| ==> r[i].id != id
  {
    Filter(reqs, OtherThan(id))
  }

  /** What is kept is exactly every request with another id. */
  lemma RemoveByIdMembers(reqs: seq<EventRecord>, id: string, x: EventRecord)
    ensures x in RemoveById(reqs, id) <==> x in reqs && x.id != id
  {
    FilterMember(reqs, OtherThan(id), x);
  }

  /** Every kept request occurs as often as before; the removed ones not at all. */
  lemma RemoveByIdCount(reqs: seq<EventRecord>, id: string, x: EventRecord)
    ensures multiset(RemoveById(reqs, id))[x] == if x.id == id then 0 else multiset(reqs)[x]
  {
    FilterCount(reqs, OtherThan(id), x);
  }

  /** Removal works piecewise, so the kept requests keep their relative order. */
  lemma RemoveByIdConcat(a: seq<EventRecord>, b: seq<EventRecord>, id: string)
    ensures RemoveById(a + b, id) == RemoveById(a, id) + RemoveById(b, id)
  {
    FilterConcat(a, b, OtherThan(id));
  }

  /** Removing an id no request carries changes nothing. */
  lemma RemoveAbsentId(reqs: seq<EventRecord>, id: string)
    requires forall i :: 0 <= i < |reqs| ==> reqs[i].id != id
    ensures RemoveById(reqs, id) == reqs
  {
    FilterAll(reqs, OtherThan(id));
  }

  /** With ids unique, removing one request's id cuts out that request and keeps the rest in place. */
  lemma RemoveOne(before: seq<EventRecord>, x: EventRecord, after: seq<EventRecord>)
    requires forall i :: 0 <= i < |before| ==> before[i].id != x.id
    requires forall i :: 0 <= i < |after| ==> after[i].id != x.id
    ensures RemoveById(before + [x] + after, x.id) == before + after
  {
    RemoveByIdConcat(before + [x], after, x.id);
    RemoveByIdConcat(before, [x], x.id);
    RemoveAbsentId(before, x.id);
    RemoveAbsentId(after, x.id);
    assert RemoveById([x], x.id) == [];
  }

  /**
   * What `acceptRequest`/`denyRequest` resolve to: a rejection (network or
   * non-2xx status), the JSON `null` (whose `.message` then throws), or any
   * other JSON value, with its `message` property when it has one.
   */
  datatype Reply = Threw | NullBody | Body(message: Option<string>)

  datatype Toast = Success(shown: Option<string>) | Failure(text: string)

  const MsgLoadFailed := "Error al cargar las peticiones."
  const MsgAcceptFailed := "Error al aceptar la petición."
  const MsgDenyFailed := "Error al negar la petición."
  const MsgNoPending := "No hay peticiones pendientes."

  /** A reply the handler can read `message` from. */
  predicate Readable(reply: Reply)
  {
    reply.Body?
  }

  /** What the page shows: the empty notice, or one card per request keyed by its id, in list order. */
  datatype Screen = Notice(text: string) | Cards(keys: seq<string>)

  function Ids(reqs: seq<EventRecord>): (r: seq<string>)
    ensures |r| == |reqs|
    ensures forall i :: 0 <= i < |r| ==> r[i] == reqs[i].id
  {
    if reqs == [] then [] else [reqs[0].id] + Ids(reqs[1..])
  }

  function Render(reqs: seq<EventRecord>): (s: Screen)
    ensures s == Notice(MsgNoPending) <==> reqs == []
    ensures s.Cards? ==> s.keys == Ids(reqs)
  {
    if |reqs| == 0 then Notice(MsgNoPending) else Cards(Ids(reqs))
  }

  /** Accepting or denying the last pending request brings up the empty notice. */
  lemma LastRemovedShowsNotice(x: EventRecord)
    ensures Render(RemoveById([x], x.id)) == Notice(MsgNoPending)
  {
    assert RemoveById([x], x.id) == [];
  }

  /** The page's state: the `requests` list and the toasts it has raised, oldest first. */
  class RequestsView {
    var requests: seq<EventRecord>
    var toasts: seq<Toast>

    constructor ()
      ensures requests == [] && toasts == []
    {
      requests := [];
      toasts := [];
    }

    /** `fetchRequests`: the answer replaces the list; a failure only raises the error toast. */
    method LoadRequests(fetched: Option<seq<EventRecord>>)
      modifies this
      ensures fetched.Some? ==> requests == fetched.value && toasts == old(toasts)
      ensures fetched.None? ==> requests == old(requests) && toasts == old(toasts) + [Failure(MsgLoadFailed)]
    {
      if fetched.Some? {
        requests := fetched.value;
      } else {
        toasts := toasts + [Failure(MsgLoadFailed)];
      }
    }

    /**
     * The body shared by `handleAccept` and `handleDeny`: a readable reply
     * raises its message and removes the id; anything else raises
     * `failure` and leaves the list.
     */
    method Settle(id: string, reply: Reply, failure: string)
      modifies this
      ensures Readable(reply) ==>
        requests == RemoveById(old(requests), id) && toasts == old(toasts) + [Success(reply.message)]
      ensures !Readable(reply) ==>
        requests == old(requests) && toasts == old(toasts) + [Failure(failure)]
    {
      match reply
      case Body(message) =>
        toasts := toasts + [Success(message)];
        requests := RemoveById(requests, id);
      case _ =>
        toasts := toasts + [Failure(failure)];
    }

    /** `handleAccept(id)` with `reply` the outcome of `acceptRequest(id)`. */
    method HandleAccept(id: string, reply: Reply)
      modifies this
      ensures Readable(reply) ==>
        requests == RemoveById(old(requests), id) && toasts == old(toasts) + [Success(reply.message)]
      ensures !Readable(reply) ==>
        requests == old(requests) && toasts == old(toasts) + [Failure(MsgAcceptFailed)]
    {
      Settle(id, reply, MsgAcceptFailed);
    }

    /** `handleDeny(id)` with `reply` the outcome of `denyRequest(id)`. */
    method HandleDeny(id: string, reply: Reply)
      modifies this
      ensures Readable(reply) ==>
        requests == RemoveById(old(requests), id) && toasts == old(toasts) + [Success(reply.message)]
      ensures !Readable(reply) ==>
        requests == old(requests) && toasts == old(toasts) + [Failure(MsgDenyFailed)]
    {
      Settle(id, reply, MsgDenyFailed);
    }
  }
}
