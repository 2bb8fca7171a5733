/** The dictionaries that describe connections not yet open, and what they say together. */
module PendingMaps {
  import opened ByteStrings
  import opened CryptoFrames
  import opened RouterModel

  /** Four dictionaries, the opening set, and the `_open` tasks that have not ended. */
  datatype Pending = Pending(
    queues: map<Key, seq<Bytes>>, crypto: map<Key, Fragments>, seen: map<Key, int>, started: map<Key, int>,
    opening: set<Key>, tasks: map<Key, OpenTask>)
  {
    ghost predicate Agree() {
      && started.Keys == queues.Keys
      && opening <= queues.Keys
      && seen.Keys == queues.Keys - opening
      && crypto.Keys <= seen.Keys
      && tasks.Keys == opening
    }

    function Known(k: Key): Fragments {
      if k in crypto then crypto[k] else map[]
    }

    ghost predicate SaysCollecting(k: Key, c: Collecting)
      requires Agree() && k in queues && k !in opening
    {
      c == Collecting(queues[k], Known(k), seen[k], started[k])
    }

    ghost predicate SaysOpening(k: Key, o: Opening)
      requires Agree() && k in opening
    {
      o == Opening(queues[k], started[k], tasks[k])
    }

    /** The dictionaries describe exactly these connections. */
    ghost predicate Shows(collecting: map<Key, Collecting>, openings: map<Key, Opening>) {
      && Agree()
      && collecting.Keys == queues.Keys - opening
      && openings.Keys == opening
      && (forall k :: k in collecting ==> SaysCollecting(k, collecting[k]))
      && (forall k :: k in openings ==> SaysOpening(k, openings[k]))
    }
  }

  lemma PendingKeys(p: Pending, collecting: map<Key, Collecting>, openings: map<Key, Opening>)
    requires p.Shows(collecting, openings)
    ensures openings.Keys == p.opening && collecting.Keys == p.queues.Keys - p.opening
    ensures collecting.Keys + openings.Keys == p.queues.Keys
  {
  }

  lemma OpeningQueued(p: Pending, collecting: map<Key, Collecting>, openings: map<Key, Opening>, k: Key, queue: seq<Bytes>)
    requires p.Shows(collecting, openings) && k in p.opening
    ensures p.(queues := p.queues[k := queue]).Shows(collecting, openings[k := openings[k].(queue := queue)])
  {
  }

  lemma CollectingSet(p: Pending, collecting: map<Key, Collecting>, openings: map<Key, Opening>, k: Key, c: Collecting)
    requires p.Shows(collecting, openings) && k !in p.opening && c.crypto == p.Known(k)
    ensures p.(queues := p.queues[k := c.queue], started := p.started[k := c.started], seen := p.seen[k := c.seen])
              .Shows(collecting[k := c], openings)
  {
  }

  lemma CryptoSet(p: Pending, collecting: map<Key, Collecting>, openings: map<Key, Opening>, k: Key, crypto: Fragments)
    requires p.Shows(collecting, openings) && k in collecting
    ensures p.(crypto := p.crypto[k := crypto]).Shows(collecting[k := collecting[k].(crypto := crypto)], openings)
  {
  }

  lemma CollectingDropped(p: Pending, collecting: map<Key, Collecting>, openings: map<Key, Opening>, gone: set<Key>)
    requires p.Shows(collecting, openings) && gone !! p.opening
    ensures p.(queues := p.queues - gone, crypto := p.crypto - gone, seen := p.seen - gone, started := p.started - gone)
              .Shows(collecting - gone, openings)
  {
  }

  lemma OpeningStarted(p: Pending, collecting: map<Key, Collecting>, openings: map<Key, Opening>, k: Key, task: OpenTask)
    requires p.Shows(collecting, openings) && k in p.queues && k !in p.opening
    ensures p.(crypto := p.crypto - {k}, seen := p.seen - {k}, opening := p.opening + {k}, tasks := p.tasks[k := task])
              .Shows(collecting - {k}, openings[k := Opening(p.queues[k], p.started[k], task)])
  {
  }

  lemma OpeningEnded(p: Pending, collecting: map<Key, Collecting>, openings: map<Key, Opening>, k: Key)
    requires p.Shows(collecting, openings) && k in p.opening
    ensures Pending(p.queues - {k}, p.crypto - {k}, p.seen - {k}, p.started - {k}, p.opening - {k}, p.tasks - {k})
              .Shows(collecting, openings - {k})
  {
  }

  lemma TaskSet(p: Pending, collecting: map<Key, Collecting>, openings: map<Key, Opening>, k: Key, task: OpenTask)
    requires p.Shows(collecting, openings) && k in p.opening
    ensures p.(tasks := p.tasks[k := task]).Shows(collecting, openings[k := openings[k].(task := task)])
  {
  }
}
