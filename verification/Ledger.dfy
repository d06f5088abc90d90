/** Calls numbered as they are issued: each is in flight, or finished once. */
module Ledger {

  /** Every call sent is either in flight or has been replied to once. */
  ghost predicate Accounted(sent: nat, inFlight: set<nat>, order: seq<nat>) {
    && (forall i, j | 0 <= i < j < |order| :: order[i] != order[j])
    && (forall i | 0 <= i < |order| :: order[i] !in inFlight && order[i] < sent)
    && (forall c: nat | c < sent :: c in inFlight || c in order)
    && (forall c | c in inFlight :: c < sent)
  }

  lemma ReplyTo(sent: nat, inFlight: set<nat>, order: seq<nat>, c: nat)
    requires Accounted(sent, inFlight, order) && c in inFlight
    ensures Accounted(sent, inFlight - {c}, order + [c])
  {
    forall d: nat | d < sent ensures d in inFlight - {c} || d in order + [c] {
      if d in order { assert d in order + [c]; }
      assert (order + [c])[|order|] == c;
    }
  }

  lemma SendNext(sent: nat, inFlight: set<nat>, order: seq<nat>)
    requires Accounted(sent, inFlight, order)
    ensures sent !in inFlight && Accounted(sent + 1, inFlight + {sent}, order)
  {}
}
