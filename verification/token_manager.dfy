/** InMemoryCancellationTokenManager (TSP/CancellationTokenManager): a dictionary from keys to
    cancellation sources. Every source ever created stays in `sources`, indexed by the
    token that reads it, so a token handed out keeps its state after its key is removed;
    `table` is the dictionary. */
module TokenManager {
  import opened Results

  /** A `CancellationToken`: the index of the source it reads. */
  type Token = nat

  datatype Manager<K> = Manager(sources: seq<bool>, table: map<K, Token>)

  /** Every key names a source, and no two keys share one. */
  predicate Valid<K>(m: Manager<K>) {
    && (forall k :: k in m.table ==> m.table[k] < |m.sources|)
    && (forall k1, k2 :: k1 in m.table && k2 in m.table && m.table[k1] == m.table[k2] ==> k1 == k2)
  }

  /** `token.IsCancellationRequested`. */
  predicate Cancelled<K>(m: Manager<K>, t: Token) {
    t < |m.sources| && m.sources[t]
  }

  /** The constructor: an empty dictionary. */
  function NewManager<K>(): (m: Manager<K>)
    ensures Valid(m) && |m.table| == 0
  {
    Manager([], map[])
  }

  /** `KeySaved(key)`: whether the dictionary holds the key; a saved key names a source
      that no other key shares. */
  predicate KeySaved<K>(m: Manager<K>, key: K): (saved: bool)
    ensures saved && Valid(m) ==> && key in m.table && m.table[key] < |m.sources|
                                  && forall k :: k in m.table && m.table[k] == m.table[key] ==> k == key
  {
    key in m.table
  }

  /** `CreateCancellationToken(key)`: a new source registered under an unused key; a used key
      is refused with the message of the source, and the refusal changes nothing. */
  function Create<K>(m: Manager<K>, key: K): (r: Result<(Manager<K>, Token)>)
    requires Valid(m)
    ensures r.Ok? <==> !KeySaved(m, key)
    ensures r.Err? ==> r.error == Failure("Key is already in use, token cannot be created.")
    ensures r.Ok? ==> var (next, t) := r.value;
                      && Valid(next)
                      && KeySaved(next, key) && next.table[key] == t && !Cancelled(next, t)
                      && |m.sources| <= t  // none of the tokens handed out before
                      && (forall u :: Cancelled(next, u) <==> Cancelled(m, u))
                      && next.table.Keys == m.table.Keys + {key}
                      && (forall k :: k in m.table ==> next.table[k] == m.table[k])
  {
    if key in m.table then Err(Failure("Key is already in use, token cannot be created."))
    else
      var t: Token := |m.sources|;
      Ok((Manager(m.sources + [false], m.table[key := t]), t))
  }

  /** `Signal(key)`: cancels the source of a saved key; an unknown key is refused. */
  function Signal<K>(m: Manager<K>, key: K): (r: Result<Manager<K>>)
    requires Valid(m)
    ensures r.Ok? <==> KeySaved(m, key)
    ensures r.Err? ==> r.error == Failure("Key is not being in use.")
    ensures r.Ok? ==> && Valid(r.value)
                      && r.value.table == m.table
                      && Cancelled(r.value, m.table[key])
                      && (forall u :: u != m.table[key] ==> (Cancelled(r.value, u) <==> Cancelled(m, u)))
  {
    if key !in m.table then Err(Failure("Key is not being in use."))
    else Ok(m.(sources := m.sources[m.table[key] := true]))
  }

  /** `RemoveCancellationToken(key)`: forgets a saved key (its source is disposed, tokens
      already handed out keep their state); an unknown key is refused. */
  function Remove<K>(m: Manager<K>, key: K): (r: Result<Manager<K>>)
    requires Valid(m)
    ensures r.Ok? <==> KeySaved(m, key)
    ensures r.Err? ==> r.error == Failure("Key is not in use.")
    ensures r.Ok? ==> && Valid(r.value)
                      && !KeySaved(r.value, key)
                      && r.value.table.Keys == m.table.Keys - {key}
                      && (forall k :: k in r.value.table ==> r.value.table[k] == m.table[k])
                      && (forall u :: Cancelled(r.value, u) <==> Cancelled(m, u))
  {
    if key !in m.table then Err(Failure("Key is not in use."))
    else Ok(m.(table := m.table - {key}))
  }

  /** Signalling one key cancels no other key's token. */
  lemma SignalIsolated<K>(m: Manager<K>, key: K, other: K)
    requires Valid(m) && KeySaved(m, key) && KeySaved(m, other) && other != key
    ensures Signal(m, key).Ok?
    ensures Cancelled(Signal(m, key).value, m.table[other]) <==> Cancelled(m, m.table[other])
  {
  }

  /** The life cycle of a request: create, signal, remove, then create again under the same
      key. The second token is a different one and starts uncancelled, while the first one
      stays cancelled. */
  lemma RecreateIsFresh<K>(m: Manager<K>, key: K)
    requires Valid(m) && !KeySaved(m, key)
    ensures var first := Create(m, key);
            && first.Ok?
            && var signalled := Signal(first.value.0, key);
            && signalled.Ok?
            && var removed := Remove(signalled.value, key);
            && removed.Ok?
            && var second := Create(removed.value, key);
            && second.Ok?
            && second.value.1 != first.value.1
            && !Cancelled(second.value.0, second.value.1)
            && Cancelled(second.value.0, first.value.1)
  {
    var first := Create(m, key).value;
    var signalled := Signal(first.0, key).value;
    var removed := Remove(signalled, key).value;
    assert Cancelled(removed, first.1);
    assert |removed.sources| > first.1;
  }
}
