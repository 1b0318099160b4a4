/** Registration of names under 64-bit ids: the hash of the name, or the next id after it that is
    not taken by another name. */
module Names {
  const IDS: nat := 0x1_0000_0000_0000_0000

  type Id = x: nat | x < IDS

  type Table = map<Id, string>

  /** The id d steps after h, wrapping around. */
  function Slot(h: Id, d: nat): Id
    requires d < IDS
  {
    if h + d < IDS then h + d else h + d - IDS
  }

  function Distance(h: Id, x: Id): (d: nat)
    ensures d < IDS && Slot(h, d) == x
    ensures forall e :: 0 <= e < IDS && Slot(h, e) == x ==> e == d
  {
    if x >= h then x - h else x + IDS - h
  }

  /** The ids from h up to, not including, the one d steps on are all taken. */
  ghost predicate TakenUpTo(t: Table, h: Id, d: nat)
    requires d < IDS
  {
    forall k :: 0 <= k < d ==> Slot(h, k) in t
  }

  /** No name has two ids, and every id from a name's hash up to its own is taken. */
  ghost predicate WellProbed(hash: string -> Id, t: Table) {
    && (forall a, b :: a in t && b in t && t[a] == t[b] ==> a == b)
    && forall id :: id in t ==> TakenUpTo(t, hash(t[id]), Distance(hash(t[id]), id))
  }

  ghost predicate Known(t: Table, name: string) { exists id :: id in t && t[id] == name }

  /** One registration: a known name gets the id it has and nothing changes; a new name gets the first
      free id at or after its hash. */
  ghost predicate Registers(hash: string -> Id, t: Table, name: string, id: Id, t': Table) {
    if Known(t, name) then
      id in t && t[id] == name && t' == t
    else
      && id !in t && t' == t[id := name]
      && TakenUpTo(t, hash(name), Distance(hash(name), id))
  }

  lemma RegistrationKeepsProbing(hash: string -> Id, t: Table, name: string, id: Id, t': Table)
    requires WellProbed(hash, t) && Registers(hash, t, name, id, t')
    ensures WellProbed(hash, t')
  {
    if !Known(t, name) {
      forall a, b | a in t' && b in t' && t'[a] == t'[b] ensures a == b {
        assert a in t && t[a] == name ==> Known(t, name);
        assert b in t && t[b] == name ==> Known(t, name);
      }
      forall x | x in t' ensures TakenUpTo(t', hash(t'[x]), Distance(hash(t'[x]), x)) {
        if x != id { assert TakenUpTo(t, hash(t[x]), Distance(hash(t[x]), x)); }
      }
    }
  }

  class Registry {
    const hash: string -> Id
    var table: Table

    ghost predicate Valid() reads this { WellProbed(hash, table) }

    constructor (hash: string -> Id)
      ensures Valid() && this.hash == hash && table == map[]
    {
      this.hash := hash;
      table := map[];
    }

    /** The probe loop ends whenever the name is known or some id is free. */
    method Register(name: string) returns (id: Id)
      requires Valid()
      requires Known(table, name) || exists free: Id :: free !in table
      modifies this`table
      ensures Valid() && Registers(hash, old(table), name, id, table)
    {
      var h := hash(name);
      ghost var goal: Id;
      if Known(table, name) {
        goal :| goal in table && table[goal] == name;
      } else {
        goal :| goal !in table;
      }
      id := h;
      ghost var d := 0;
      while id in table
        invariant 0 <= d <= Distance(h, goal) && id == Slot(h, d)
        invariant TakenUpTo(table, h, d)
        invariant forall k :: 0 <= k < d ==> table[Slot(h, k)] != name
        invariant table == old(table)
        decreases IDS - d
      {
        if table[id] == name { break; }
        assert d == Distance(h, id);
        id := if id + 1 == IDS then 0 else id + 1;
        d := d + 1;
      }
      Arrived(hash, table, name, goal, d);
      table := table[id := name];
      assert id in old(table) ==> table == old(table);
      RegistrationKeepsProbing(hash, old(table), name, id, table);
    }

    /** The name registered under an id; the empty name if there is none. */
    method NameOf(id: Id) returns (name: string)
      ensures name == if id in table then table[id] else ""
    {
      name := if id in table then table[id] else "";
    }
  }

  /** Where the probing stops: at the name's own id if it has one, else at a free id. */
  lemma Arrived(hash: string -> Id, t: Table, name: string, goal: Id, d: nat)
    requires WellProbed(hash, t)
    requires if Known(t, name) then goal in t && t[goal] == name else goal !in t
    requires d <= Distance(hash(name), goal)
    requires Slot(hash(name), d) !in t || t[Slot(hash(name), d)] == name
    ensures Known(t, name) <==> Slot(hash(name), d) in t
    ensures Known(t, name) ==> Slot(hash(name), d) == goal
  {
    var here := Slot(hash(name), d);
    if Known(t, name) {
      assert TakenUpTo(t, hash(name), Distance(hash(name), goal));
      assert d < Distance(hash(name), goal) ==> here in t;
    }
  }

  // ---- histories ----

  /** A registration that was made: the name and the id it was given. */
  datatype Entry = Entry(name: string, id: Id)

  ghost predicate Made(hash: string -> Id, tables: seq<Table>, made: seq<Entry>, i: nat)
    requires i < |made| && |tables| == |made| + 1
  {
    Registers(hash, tables[i], made[i].name, made[i].id, tables[i + 1])
  }

  /** A history of registrations, from the empty table on. */
  ghost predicate IsHistory(hash: string -> Id, tables: seq<Table>, made: seq<Entry>) {
    && |tables| == |made| + 1
    && tables[0] == map[]
    && forall i :: 0 <= i < |made| ==> Made(hash, tables, made, i)
  }

  lemma {:induction false} HistoryWellProbed(hash: string -> Id, tables: seq<Table>, made: seq<Entry>, i: nat)
    requires IsHistory(hash, tables, made) && i < |tables|
    ensures WellProbed(hash, tables[i])
  {
    if i > 0 {
      HistoryWellProbed(hash, tables, made, i - 1);
      assert Made(hash, tables, made, i - 1);
      RegistrationKeepsProbing(hash, tables[i - 1], made[i - 1].name, made[i - 1].id, tables[i]);
    }
  }

  lemma {:induction false} NamesStay(hash: string -> Id, tables: seq<Table>, made: seq<Entry>, i: nat, j: nat)
    requires IsHistory(hash, tables, made) && i < j < |tables|
    ensures made[i].id in tables[j] && tables[j][made[i].id] == made[i].name
    decreases j - i
  {
    assert Made(hash, tables, made, j - 1);
    if i < j - 1 { NamesStay(hash, tables, made, i, j - 1); }
  }

  /** In every history, for every hash: two registrations give the same id exactly when they are for the
      same name, and looking an id up from then on gives the name it was handed out for. */
  lemma IdsIdentifyNames(hash: string -> Id, tables: seq<Table>, made: seq<Entry>, i: nat, j: nat, later: nat)
    requires IsHistory(hash, tables, made) && i < later < |tables| && j < later
    ensures made[i].id == made[j].id <==> made[i].name == made[j].name
    ensures made[i].id in tables[later] && tables[later][made[i].id] == made[i].name
  {
    HistoryWellProbed(hash, tables, made, later);
    NamesStay(hash, tables, made, i, later);
    NamesStay(hash, tables, made, j, later);
  }
}
