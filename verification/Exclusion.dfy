/** The counter behind every reader-writer lock here: -1 for one writer, else the number of readers. */
module Exclusion {
  type Id = nat

  datatype Role = Outside | Reader | Writer

  ghost function Holding(roles: map<Id, Role>, role: Role): set<Id> {
    set t | t in roles && roles[t] == role
  }

  /** The counter tells who is inside, and a writer is inside alone. */
  ghost predicate Counted(lock: int, roles: map<Id, Role>) {
    || (lock == -1 && |Holding(roles, Writer)| == 1 && Holding(roles, Reader) == {})
    || (lock == |Holding(roles, Reader)| && Holding(roles, Writer) == {})
  }

  lemma Joins(roles: map<Id, Role>, t: Id, role: Role)
    requires t in roles && roles[t] != role
    ensures Holding(roles[t := role], role) == Holding(roles, role) + {t}
    ensures |Holding(roles[t := role], role)| == |Holding(roles, role)| + 1
  {
    assert Holding(roles[t := role], role) == Holding(roles, role) + {t};
  }

  lemma Departs(roles: map<Id, Role>, t: Id, role: Role)
    requires t in roles && roles[t] != role
    ensures Holding(roles[t := role], roles[t]) == Holding(roles, roles[t]) - {t}
    ensures |Holding(roles[t := role], roles[t])| == |Holding(roles, roles[t])| - 1
  {
    assert t in Holding(roles, roles[t]);
    assert Holding(roles[t := role], roles[t]) == Holding(roles, roles[t]) - {t};
  }

  lemma Stays(roles: map<Id, Role>, t: Id, role: Role, other: Role)
    requires t in roles && other != role && other != roles[t]
    ensures Holding(roles[t := role], other) == Holding(roles, other)
  {
  }

  lemma ReaderEnters(lock: int, roles: map<Id, Role>, t: Id)
    requires Counted(lock, roles) && lock >= 0 && t in roles && roles[t] == Outside
    ensures Counted(lock + 1, roles[t := Reader])
  {
    Joins(roles, t, Reader);
    Stays(roles, t, Reader, Writer);
  }

  lemma ReaderLeaves(lock: int, roles: map<Id, Role>, t: Id)
    requires Counted(lock, roles) && t in roles && roles[t] == Reader
    ensures Counted(lock - 1, roles[t := Outside]) && lock > 0
  {
    assert t in Holding(roles, Reader);
    Departs(roles, t, Outside);
    Stays(roles, t, Outside, Writer);
  }

  lemma WriterEnters(lock: int, roles: map<Id, Role>, t: Id)
    requires Counted(lock, roles) && lock == 0 && t in roles && roles[t] == Outside
    ensures Counted(-1, roles[t := Writer])
  {
    Joins(roles, t, Writer);
    Stays(roles, t, Writer, Reader);
  }

  lemma WriterLeaves(lock: int, roles: map<Id, Role>, t: Id)
    requires Counted(lock, roles) && t in roles && roles[t] == Writer
    ensures Counted(lock + 1, roles[t := Outside]) && lock == -1
  {
    assert t in Holding(roles, Writer);
    Departs(roles, t, Outside);
    Stays(roles, t, Outside, Reader);
  }

  /** While a writer is inside, everyone else is outside. */
  lemma WriterIsAlone(lock: int, roles: map<Id, Role>, w: Id, t: Id)
    requires Counted(lock, roles) && w in roles && roles[w] == Writer && t in roles && t != w
    ensures roles[t] == Outside
  {
    assert w in Holding(roles, Writer);
    OnlyOne(Holding(roles, Writer), w);
    assert roles[t] == Writer ==> t in Holding(roles, Writer);
    assert roles[t] == Reader ==> t in Holding(roles, Reader);
  }

  lemma OnlyOne(s: set<Id>, w: Id)
    requires w in s && |s| == 1
    ensures s == {w}
  {
    assert |s - {w}| == 0;
  }
}
