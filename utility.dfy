/**
 * Constants of the charging challenge and the read-only collaborators the
 * route planner calls into: the station table, the great-circle distance and
 * the formatter for charge times.  None of them is modelled in detail; each is
 * a parameter whose only known properties are the ones stated in Oracle.Valid().
 */
module Utility {

  /** Maximum distance (km) the car covers on one full charge. */
  const FULL_CHARGE: real := 320.0

  /** Battery level (km) on leaving the start station: a full battery. */
  const INIT_CHARGE: real := FULL_CHARGE

  /** Network-wide average charge rate (km of range per hour). */
  const AVERAGE_RATE: real := 134.0

  /** Constant driving speed (km/h). */
  const SPEED: real := 105.0

  datatype Option<T> = None | Some(value: T)

  /** std::max on doubles: the second argument only when the first is smaller. */
  function Max(a: real, b: real): (m: real)
    ensures m >= a && m >= b && (m == a || m == b)
  {
    if a < b then b else a
  }

  /** No element occurs twice. */
  ghost predicate Distinct<T>(s: seq<T>) {
    forall i, j :: 0 <= i < j < |s| ==> s[i] != s[j]
  }

  /** One row of the station table: a name and its charge rate (km/h). */
  datatype Record = Record(name: string, rate: real)

  /**
   * The station database and the other foreign calls, as values.  `table` is the
   * network table in its own order, `dist` stands for the great-circle distance
   * between two named stations and `format` for the fixed five-decimal rendering of
   * a charge time rounded up to 1e-5.
   */
  datatype Oracle = Oracle(table: seq<Record>, dist: (string, string) -> real, format: real -> string)
  {
    /** Charge rates are positive and distances are never negative. */
    ghost predicate Valid() {
      && (forall i :: 0 <= i < |table| ==> table[i].rate > 0.0)
      && (forall a, b :: dist(a, b) >= 0.0)
    }

    /** The name has a record; a lookup of any other name throws. */
    predicate Has(name: string) {
      exists i :: 0 <= i < |table| && table[i].name == name
    }

    /**
     * The rate of a known station.  The lookup map is filled in table order, so
     * when a name occurs twice the later record wins.
     */
    function Rate(name: string): (r: real)
      requires Has(name)
      ensures Valid() ==> r > 0.0
    {
      LastRate(table, name)
    }

    /**
     * The stations within one full charge of `name`, in table order.  Looking up an
     * unknown name throws.
     */
    function Neighbors(name: string): (ns: seq<string>)
      requires Has(name)
      ensures |ns| <= |table|
      ensures forall c :: c in ns <==> Has(c) && dist(name, c) <= FULL_CHARGE
    {
      WithinAll(table, dist, name);
      Within(table, dist, name)
    }
  }

  /** The rate of the last record named `name`. */
  function LastRate(table: seq<Record>, name: string): (r: real)
    requires exists i :: 0 <= i < |table| && table[i].name == name
    ensures (forall i :: 0 <= i < |table| ==> table[i].rate > 0.0) ==> r > 0.0
  {
    var last := table[|table| - 1];
    var front := table[..|table| - 1];
    if last.name == name then
      last.rate
    else
      assert exists i :: 0 <= i < |front| && front[i].name == name by {
        var i :| 0 <= i < |table| && table[i].name == name;
        assert i < |front| && front[i] == table[i];
      }
      LastRate(front, name)
  }

  /** The looked-up rate is that of the last record with the name. */
  lemma {:induction false} LastRateIsLast(table: seq<Record>, name: string)
    requires exists i :: 0 <= i < |table| && table[i].name == name
    ensures exists i :: 0 <= i < |table| && table[i] == Record(name, LastRate(table, name)) &&
                        forall j :: i < j < |table| ==> table[j].name != name
  {
    var last := table[|table| - 1];
    var front := table[..|table| - 1];
    if last.name == name {
      assert table[|table| - 1] == Record(name, LastRate(table, name));
    } else {
      var i :| 0 <= i < |table| && table[i].name == name;
      assert i < |front| && front[i] == table[i];
      LastRateIsLast(front, name);
      var k :| 0 <= k < |front| && front[k] == Record(name, LastRate(front, name)) &&
               forall j :: k < j < |front| ==> front[j].name != name;
      assert table[k] == front[k];
      forall j | k < j < |table| ensures table[j].name != name {
        if j < |front| { assert front[j] == table[j]; }
      }
    }
  }

  /** A known station's rate is the rate of its last record in the table. */
  lemma RateOfLastRecord(db: Oracle, name: string)
    requires db.Has(name)
    ensures exists i :: 0 <= i < |db.table| && db.table[i] == Record(name, db.Rate(name)) &&
                        forall j :: i < j < |db.table| ==> db.table[j].name != name
  {
    LastRateIsLast(db.table, name);
  }

  /** The names of the records within FULL_CHARGE of `from`, in table order. */
  function Within(table: seq<Record>, dist: (string, string) -> real, from: string): (ns: seq<string>)
    ensures |ns| <= |table|
  {
    if table == [] then []
    else
      var rest := Within(table[..|table| - 1], dist, from);
      var last := table[|table| - 1].name;
      if dist(from, last) <= FULL_CHARGE then rest + [last] else rest
  }

  /** A neighbour is exactly a known station within one full charge. */
  lemma {:induction false} WithinMembers(table: seq<Record>, dist: (string, string) -> real, from: string, c: string)
    ensures c in Within(table, dist, from) <==>
            (exists i :: 0 <= i < |table| && table[i].name == c) && dist(from, c) <= FULL_CHARGE
  {
    if table != [] {
      var front := table[..|table| - 1];
      WithinMembers(front, dist, from, c);
      if exists i :: 0 <= i < |table| && table[i].name == c {
        var i :| 0 <= i < |table| && table[i].name == c;
        if i < |table| - 1 { assert front[i] == table[i]; }
      }
      if exists i :: 0 <= i < |front| && front[i].name == c {
        var i :| 0 <= i < |front| && front[i].name == c;
        assert table[i] == front[i];
      }
    }
  }

  /** The neighbour filter holds exactly the names of records within FULL_CHARGE. */
  lemma WithinAll(table: seq<Record>, dist: (string, string) -> real, from: string)
    ensures forall c :: c in Within(table, dist, from) <==>
              (exists i :: 0 <= i < |table| && table[i].name == c) && dist(from, c) <= FULL_CHARGE
  {
    forall c ensures c in Within(table, dist, from) <==>
                     (exists i :: 0 <= i < |table| && table[i].name == c) && dist(from, c) <= FULL_CHARGE {
      WithinMembers(table, dist, from, c);
    }
  }
}
