/**
 The runner table and the operations a broker may perform on it.

 A runner id is 32 lower-case hex digits.  Ids of one fixed length are ordered by
 the table exactly as the numbers they spell, so an id is modelled by that number.
 Each operation below is one atomic action on the table; the conditional ones leave
 the table alone when their condition fails.

 `incarnation` numbers the successful registrations.  The program does not store it;
 it only lets a record be told apart from a later record under the same id.
 */
module RunnerPool {

  // Sixteen to the power of thirty-two.
  const KEY_SPACE: nat := 0x1_0000_0000_0000_0000_0000_0000_0000_0000

  type Key = k: nat | k < KEY_SPACE

  type SessionId = string

  datatype RunnerState = Idle | Busy(session: SessionId)

  datatype Runner = Runner(host: string, state: RunnerState, incarnation: nat)

  /**
   The table, the idle partition of the lagging index, and the number of registrations so far.  An index
   item carries the host as it was when the item was copied.
   */
  datatype World = World(table: map<Key, Runner>, index: map<Key, string>, registrations: nat)

  predicate IdleAt(w: World, k: Key) {
    k in w.table && w.table[k].state.Idle?
  }

  predicate BusyWith(w: World, k: Key, s: SessionId) {
    k in w.table && w.table[k].state == Busy(s)
  }

  ghost predicate NoRecord(w: World, s: SessionId) {
    forall k :: !BusyWith(w, k, s)
  }

  function IdleKeys(w: World): set<Key> {
    set k | k in w.table && w.table[k].state.Idle?
  }

  /** The idle runners a query on the index can find. */
  function Visible(w: World): set<Key> {
    IdleKeys(w) * w.index.Keys
  }

  /** Put with the condition that the id is absent. */
  function RegisterRunner(w: World, k: Key, host: string): World {
    if k in w.table then w
    else w.(table := w.table[k := Runner(host, Idle, w.registrations)], registrations := w.registrations + 1)
  }

  /** Update with the condition that the state is idle. */
  function AssignSession(w: World, k: Key, s: SessionId): World {
    if IdleAt(w, k) then w.(table := w.table[k := w.table[k].(state := Busy(s))]) else w
  }

  /** Unconditional delete. */
  function DeleteRunner(w: World, k: Key): World {
    w.(table := w.table - {k})
  }

  /** What the index shows is not the broker's doing: it may become anything. */
  function Reindex(w: World, index: map<Key, string>): World {
    w.(index := index)
  }

  /** Every record has its own incarnation, and none from the future. */
  predicate WellNumbered(w: World) {
    && (forall k <- w.table :: w.table[k].incarnation < w.registrations)
    && (forall k <- w.table, l <- w.table :: k != l ==> w.table[k].incarnation != w.table[l].incarnation)
  }

  /**
   What can have become of the records of `w` by the time the world is `v`: a record that
   is still there kept its id and host, and its session if it had one; a record that
   is gone does not come back.
   */
  predicate Evolves(w: World, v: World) {
    && w.registrations <= v.registrations
    && forall k <- v.table :: v.table[k].incarnation < w.registrations ==>
         && k in w.table
         && v.table[k].incarnation == w.table[k].incarnation
         && v.table[k].host == w.table[k].host
         && (w.table[k].state.Busy? ==> v.table[k].state == w.table[k].state)
  }

  lemma EvolvesTransitive(u: World, v: World, w: World)
    requires Evolves(u, v) && Evolves(v, w)
    ensures Evolves(u, w)
  {
    forall k <- w.table | w.table[k].incarnation < u.registrations
      ensures k in u.table && w.table[k].incarnation == u.table[k].incarnation && w.table[k].host == u.table[k].host
      ensures u.table[k].state.Busy? ==> w.table[k].state == u.table[k].state
    {
      assert k in v.table;
    }
  }

  predicate OneRecordPerSession(w: World) {
    forall k <- w.table, l <- w.table ::
      k != l && w.table[k].state.Busy? && w.table[l].state.Busy? ==> w.table[k].state != w.table[l].state
  }

  predicate RecordsSound(w: World) {
    WellNumbered(w) && OneRecordPerSession(w)
  }

  lemma RegisterKeepsRecords(w: World, k: Key, host: string)
    requires RecordsSound(w)
    ensures RecordsSound(RegisterRunner(w, k, host)) && Evolves(w, RegisterRunner(w, k, host))
  {
  }

  lemma AssignKeepsRecords(w: World, k: Key, s: SessionId)
    requires RecordsSound(w) && (forall l <- w.table :: !BusyWith(w, l, s))
    ensures RecordsSound(AssignSession(w, k, s)) && Evolves(w, AssignSession(w, k, s))
  {
  }

  lemma DeleteKeepsRecords(w: World, k: Key)
    requires RecordsSound(w)
    ensures RecordsSound(DeleteRunner(w, k)) && Evolves(w, DeleteRunner(w, k))
  {
  }
}
