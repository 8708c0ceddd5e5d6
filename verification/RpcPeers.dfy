/**
 Request and response matching of internal/rpc/peer.go: the pending table, and every interleaving of
 calls, response dispatch, context expiry and Close.

 A call is named by its number; its waiter is a channel that holds one result. The response path
 removes a waiter under the lock and sends to it afterwards, so these are two steps, and any number
 of readers may be between them.
 */
module RpcPeers {
  import opened Options
  import opened Numbers

  /** A response with its id as protocol.IDKey reads it. */
  datatype Response = Response(key: string, body: string)

  datatype Item = Reply(response: Response) | ClosedError

  // ---------------------------------------------------------------- keys

  /** The JSON text of the id a call sends. */
  function KeyOf(n: nat): string {
    "\"peer-" + Decimal(n) + "\""
  }

  lemma KeysDiffer(m: nat, n: nat)
    requires KeyOf(m) == KeyOf(n)
    ensures m == n
  {
    DecimalReadsBack(m);
    DecimalReadsBack(n);
    assert KeyOf(m)[6..|KeyOf(m)| - 1] == Decimal(m);
    assert KeyOf(n)[6..|KeyOf(n)| - 1] == Decimal(n);
  }

  // ---------------------------------------------------------------- the pending table

  /** pending, and what each waiter's channel holds. */
  datatype Table = Table(pending: map<string, nat>, box: map<nat, Option<Item>>)

  function Register(t: Table, n: nat): Table {
    Table(t.pending[KeyOf(n) := n], t.box[n := None])
  }

  function Remove(t: Table, key: string): Table {
    t.(pending := t.pending - {key})
  }

  function Send(t: Table, n: nat, item: Item): Table {
    t.(box := t.box[n := Some(item)])
  }

  /** Every waiter still listed is removed and told that the peer is closed. */
  function Drain(t: Table): Table {
    Table(map[], map n | n in t.box :: if n in t.pending.Values then Some(ClosedError) else t.box[n])
  }

  /** A send to n would not block. */
  predicate Ready(t: Table, n: nat) {
    n in t.box && t.box[n].None?
  }

  ghost predicate OneKeyEach(m: map<string, nat>) {
    forall j, k | j in m && k in m && m[j] == m[k] :: j == k
  }

  ghost predicate DrainCanFinish(t: Table) {
    OneKeyEach(t.pending) && forall k | k in t.pending :: Ready(t, t.pending[k])
  }

  lemma ValuesWithout(m: map<string, nat>, key: string)
    requires OneKeyEach(m) && key in m
    ensures forall n :: n in (m - {key}).Values <==> n in m.Values && n != m[key]
  {
    var rest := m - {key};
    forall n | n in m.Values && n != m[key] ensures n in rest.Values {
      var k :| k in m && m[k] == n;
      assert k in rest && rest[k] == n;
    }
    forall n | n in rest.Values ensures n in m.Values && n != m[key] {
      var k :| k in rest && rest[k] == n;
      assert k in m && m[k] == n;
    }
  }

  /** Removing and telling one waiter leaves the rest of the drain to do. */
  lemma DrainOne(t: Table, key: string)
    requires DrainCanFinish(t) && key in t.pending
    ensures var u := Remove(t, key);
            && Ready(u, t.pending[key])
            && DrainCanFinish(Send(u, t.pending[key], ClosedError))
            && Drain(Send(u, t.pending[key], ClosedError)) == Drain(t)
  {
    ValuesWithout(t.pending, key);
    var u := Send(Remove(t, key), t.pending[key], ClosedError);
    assert t.pending[key] in t.pending.Values;
    assert Drain(u).box.Keys == Drain(t).box.Keys;
    assert Drain(u).box == Drain(t).box;
  }

  lemma DrainNone(t: Table)
    requires t.pending == map[]
    ensures Drain(t) == t
  {
  }

  class Peer {
    var pending: map<string, nat>
    var box: map<nat, Option<Item>>

    ghost function Model(): Table
      reads this
    {
      Table(pending, box)
    }

    method Enlist(n: nat)
      modifies this
      ensures Model() == Register(old(Model()), n)
    {
      box := box[n := None];
      pending := pending[KeyOf(n) := n];
    }

    /** The locked part of the response path. */
    method TakeWaiter(key: string) returns (waiter: Option<nat>)
      modifies this
      ensures waiter == if key in old(pending) then Some(old(pending)[key]) else None
      ensures Model() == Remove(old(Model()), key)
    {
      waiter := None;
      if key in pending {
        waiter := Some(pending[key]);
        pending := pending - {key};
      }
    }

    /** A send blocks on a full channel, so it needs an empty one. */
    method SendTo(n: nat, item: Item)
      requires Ready(Model(), n)
      modifies this
      ensures Model() == Send(old(Model()), n, item)
    {
      box := box[n := Some(item)];
    }

    /** The locked part of Close. */
    method DrainPending()
      requires DrainCanFinish(Model())
      modifies this
      ensures Model() == Drain(old(Model()))
    {
      hide Drain, DrainCanFinish, Ready;
      while pending != map[]
        invariant DrainCanFinish(Model()) && Drain(Model()) == Drain(old(Model()))
        decreases |pending|
      {
        var key :| key in pending;
        var waiter := pending[key];
        DrainOne(Model(), key);
        ghost var before := pending;
        pending := pending - {key};
        assert pending.Keys == before.Keys - {key};
        assert |pending.Keys| < |before.Keys|;
        SendTo(waiter, ClosedError);
      }
      DrainNone(Model());
    }
  }
}
