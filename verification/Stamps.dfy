/**
 * The asOf of a snapshot, as it reaches balances.service.js: a number of milliseconds, or the ISO 8601
 * text of a batch row, which nothing parses (hcm.controller.js, reconciliation.service.js).
 */
module Stamps {
  import opened Types
  import opened Texts

  function AsNumber(t: Stamp): Option<int> {
    match t
    case Ms(time) => Some(time)
    case Iso(text) => BareNumber(text)
  }

  /** What an INTEGER column holds after the stamp is written to it: a text stays a text unless it is a bare number. */
  function Kept(t: Stamp): Stamp {
    match AsNumber(t)
    case Some(n) => Ms(n)
    case None => t
  }

  /** JavaScript's a < b: two texts compare as texts, anything else as numbers, and never with what is not one. */
  predicate Before(a: Stamp, b: Stamp) {
    if a.Iso? && b.Iso? then Less(a.text, b.text)
    else AsNumber(a).Some? && AsNumber(b).Some? && AsNumber(a).value < AsNumber(b).value
  }

  /** Whether a stamp is a text once kept. */
  predicate IsText(t: Stamp) { Kept(t).Iso? }

  predicate SameKind(a: Stamp, b: Stamp) { IsText(a) <==> IsText(b) }

  /** The snapshot is older than the cached one, as the program tells: it compares what arrives with what was kept. */
  predicate Stale(arrives: Stamp, cached: Stamp) { Before(arrives, Kept(cached)) }

  /** A bare number and a proper text: the one pairing that is compared as text or as number depending on which came first. */
  predicate Clash(a: Stamp, b: Stamp) { a.Iso? && !IsText(a) && IsText(b) }

  /** Older in the stamp's own kind: earlier in milliseconds, or a lesser text. */
  predicate OlderInKind(a: Stamp, b: Stamp) {
    match (Kept(a), Kept(b))
    case (Ms(m), Ms(n)) => m < n
    case (Iso(s), Iso(t)) => Less(s, t)
    case _ => false
  }

  /**
   * So a snapshot is stale exactly when both stamps are of one kind and it is the older one in that kind, or when
   * it is a bare number that is less, as a text, than the text cached.
   */
  lemma StaleIff(arrives: Stamp, cached: Stamp)
    ensures Stale(arrives, cached) <==>
            || (SameKind(arrives, cached) && OlderInKind(arrives, cached))
            || (Clash(arrives, cached) && Less(arrives.text, Kept(cached).text))
  {
  }

  /** Within a kind, age is a total order. */
  lemma OlderIsTotal(a: Stamp, b: Stamp)
    requires SameKind(a, b)
    ensures OlderInKind(a, b) <==> Kept(a) != Kept(b) && !OlderInKind(b, a)
  {
    if IsText(a) { LessIsTotal(Kept(a).text, Kept(b).text); }
  }

  lemma OlderTransitive(a: Stamp, b: Stamp, d: Stamp)
    requires OlderInKind(a, b) && OlderInKind(b, d)
    ensures OlderInKind(a, d)
  {
    if IsText(a) { LessTransitive(Kept(a).text, Kept(b).text, Kept(d).text); }
  }

  lemma KeptTwice(t: Stamp)
    ensures Kept(Kept(t)) == Kept(t)
  {
  }

  /** A cached row as its columns hold it. */
  function Stored(b: Balance): Balance { b.(hcmSnapshotAt := Kept(b.hcmSnapshotAt)) }
}
