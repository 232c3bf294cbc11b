/** Per-stripe request queues of one worker's I/O channel. */
module StripeQueues {

  datatype Option<+T> = None | Some(value: T)

  datatype StripeQueue<+R> = StripeQueue(pending: seq<R>, draining: bool)

  type Stripes<R> = map<nat, StripeQueue<R>>

  /** The table with a request appended to its stripe, and whether that stripe was being drained. */
  function Enqueued<R>(m: Stripes<R>, stripe: nat, req: R): (Stripes<R>, bool) {
    var sq := if stripe in m then m[stripe] else StripeQueue([], false);
    (m[stripe := StripeQueue(sq.pending + [req], true)], sq.draining)
  }

  /** The table after the drainer asked for the next request, and the answer. */
  function Dequeued<R>(m: Stripes<R>, stripe: nat): (Stripes<R>, Option<R>)
    requires stripe in m
  {
    var sq := m[stripe];
    if sq.pending == [] then (m - {stripe}, None)
    else (m[stripe := StripeQueue(sq.pending[1..], sq.draining)], Some(sq.pending[0]))
  }

  class Raid5IoChannel<R> {
    var stripes: Stripes<R>

    constructor ()
      ensures stripes == map[]
    {
      stripes := map[];
    }

    method Enqueue(stripe: nat, req: R) returns (alreadyDraining: bool)
      modifies this
      ensures (stripes, alreadyDraining) == Enqueued(old(stripes), stripe, req)
      ensures stripe in stripes && stripes[stripe].draining && req in stripes[stripe].pending
    {
      if stripe !in stripes {
        stripes := stripes[stripe := StripeQueue([], false)];
      }
      var sq := stripes[stripe];
      sq := sq.(pending := sq.pending + [req]);
      alreadyDraining := sq.draining;
      sq := sq.(draining := true);
      stripes := stripes[stripe := sq];
      assert stripes == old(stripes)[stripe := sq];
    }

    /** The driver panics on a stripe that is not in the table. */
    method Dequeue(stripe: nat) returns (req: Option<R>)
      requires stripe in stripes
      modifies this
      ensures (stripes, req) == Dequeued(old(stripes), stripe)
      ensures req.None? <==> stripe !in stripes
    {
      var sq := stripes[stripe];
      if |sq.pending| > 0 {
        req := Some(sq.pending[0]);
        stripes := stripes[stripe := sq.(pending := sq.pending[1..])];
      } else {
        stripes := stripes - {stripe};
        req := None;
      }
    }
  }
}
