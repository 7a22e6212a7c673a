/** Result: named conditions and an aggregator (board.py `Result`). */
module Results {

  import opened Moves

  /** The values a condition can hold: a flag, the list of matched cards, or a text. */
  datatype Value = Flag(b: bool) | Cards(found: seq<Move>) | Text(s: string)

  /** Python truthiness of a condition's value. */
  predicate Truthy(v: Value)
  {
    match v
    case Flag(b) => b
    case Cards(found) => |found| > 0
    case Text(s) => |s| > 0
  }

  /** `all` (the default) or `any` (the win scans). */
  datatype Aggregate = All | Any

  datatype Result = Result(conditions: seq<(string, Value)>, eval: Aggregate)
  {
    /** `success`: the aggregate of the truthiness of all values. */
    predicate Success()
    {
      match eval
      case All => forall i :: 0 <= i < |conditions| ==> Truthy(conditions[i].1)
      case Any => exists i :: 0 <= i < |conditions| && Truthy(conditions[i].1)
    }

    predicate Has(key: string)
    {
      exists i :: 0 <= i < |conditions| && conditions[i].0 == key
    }

    /** The value stored under `key`: the first entry with that key. */
    function Get(key: string): (v: Value)
      requires Has(key)
      ensures exists i :: 0 <= i < |conditions| && conditions[i] == (key, v)
    {
      LookupKey(conditions, key)
    }
  }

  function LookupKey(cs: seq<(string, Value)>, key: string): (v: Value)
    requires exists i :: 0 <= i < |cs| && cs[i].0 == key
    ensures exists i :: 0 <= i < |cs| && cs[i] == (key, v)
  {
    if cs[0].0 == key then cs[0].1 else
      assert exists i :: 0 <= i < |cs[1..]| && cs[1..][i].0 == key by {
        var i :| 0 <= i < |cs| && cs[i].0 == key;
        assert cs[1..][i - 1].0 == key;
      }
      var v := LookupKey(cs[1..], key);
      ghost var i :| 0 <= i < |cs[1..]| && cs[1..][i] == (key, v);
      assert cs[i + 1] == (key, v);
      v
  }
}
