/**
 The frequency table of observed five-move windows: a map from a window,
 written as a string of move codes, to the number of times it was seen.
 */
module Tally {

  type Table = map<string, nat>

  /** Count recorded for `key`, zero when the key is absent. */
  function CountOf(table: Table, key: string): nat {
    if key in table then table[key] else 0
  }

  /** Records one more sighting of `key`: inserted with count 1 when absent. */
  function Bump(table: Table, key: string): (bumped: Table)
    ensures key in bumped && bumped[key] == CountOf(table, key) + 1
    ensures bumped.Keys == table.Keys + {key}
    ensures forall k :: k in table && k != key ==> bumped[k] == table[k]
  {
    table[key := CountOf(table, key) + 1]
  }

  /** Every key is a window of `width` moves and every recorded count is positive. */
  ghost predicate WellFormedTable(table: Table, width: nat) {
    forall k :: k in table ==> |k| == width && table[k] >= 1
  }

  /** Some key of a non-empty table. */
  ghost function AnyKey(table: Table): (k: string)
    requires |table| > 0
    ensures k in table
  {
    var k :| k in table; k
  }

  /** Sum of all counts in the table. */
  ghost function Total(table: Table): nat
    decreases |table|
  {
    if |table| == 0 then 0
    else
      var k := AnyKey(table);
      table[k] + Total(table - {k})
  }

  /** The sum may be split at any key, whichever key `Total` happened to pick. */
  lemma {:induction false} TotalRemove(table: Table, key: string)
    requires key in table
    ensures Total(table) == table[key] + Total(table - {key})
    decreases |table|
  {
    var k := AnyKey(table);
    if k != key {
      var rest := table - {k};
      assert key in rest;
      TotalRemove(rest, key);
      var without := table - {key};
      assert k in without;
      TotalRemove(without, k);
      assert rest - {key} == without - {k};
    }
  }

  /** A bump adds exactly one to the sum of the counts. */
  lemma BumpTotal(table: Table, key: string)
    ensures Total(Bump(table, key)) == Total(table) + 1
  {
    var bumped := Bump(table, key);
    TotalRemove(bumped, key);
    if key in table {
      TotalRemove(table, key);
      assert bumped - {key} == table - {key};
    } else {
      assert bumped - {key} == table;
    }
  }

  /** A bump keeps keys of the given width and positive counts. */
  lemma BumpWellFormed(table: Table, key: string, width: nat)
    requires WellFormedTable(table, width)
    requires |key| == width
    ensures WellFormedTable(Bump(table, key), width)
  {
  }
}
