/** The whole path from overlay writes to the authorisation service. */
module GrantDelivery {
  import opened FgaIntents
  import opened RegistryStore
  import opened OutboxOrder
  import opened PublicGrant
  import opened RegisterApplier

  /** After any harmless interleaving of transactions, draining the outbox through an unreliable
      peer makes exactly the PUBLIC repositories readable by everyone. */
  method DeliverGrants(peer: Peer, outbox: map<nat, OutboxRow>, nextId: nat, attempts: nat,
                       ghost steps: seq<Step>, ghost w: World) returns (done: bool)
    requires Runs(INIT, steps, w) && AllAccepted(steps) && HarmlessRun(INIT, steps)
    requires w.outbox == outbox && w.nextId == nextId
    modifies peer
    ensures done ==> forall id, name :: Slashless(id) && PublicGetTuple(id, name) !in old(peer.tuples) ==>
              (PublicGetTuple(id, name) in peer.tuples <==> PublicIn(SlotOf(w.registries, id), name))
    ensures attempts > 0 && Serving(old(peer.conduct), CallsFor(outbox, nextId)) ==> done
  {
    done := DrainOutbox(peer, outbox, nextId, attempts);
    forall id, name | done && Slashless(id) && PublicGetTuple(id, name) !in old(peer.tuples)
      ensures PublicGetTuple(id, name) in peer.tuples <==> PublicIn(SlotOf(w.registries, id), name)
    {
      PublicGrantEqualsVisibility(steps, w, id, name);
    }
  }
}
