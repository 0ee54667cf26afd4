/** The `skip`/`limit` window a MongoDB cursor applies to the documents of a
    query, in the order the cursor returns them. */
module Cursor {
  import opened Wrappers

  function Abs(x: int): nat {
    if x < 0 then -x else x
  }

  /** `cursor.skip(skip).limit(limit)`. A negative skip is refused by the
      server. A limit of 0 means no limit; a negative limit returns as many
      documents as its absolute value. */
  function Window<T>(items: seq<T>, skip: int, limit: int): (r: Option<seq<T>>)
    ensures r.Some? <==> skip >= 0
    ensures r.Some? ==> |r.value| <= |items| && (limit != 0 ==> |r.value| <= Abs(limit))
    ensures r.Some? ==> forall k :: 0 <= k < |r.value| ==> skip + k < |items| && r.value[k] == items[skip + k]
  {
    if skip < 0 then None
    else
      var rest := if skip <= |items| then items[skip..] else [];
      if limit == 0 || Abs(limit) >= |rest| then Some(rest) else Some(rest[..Abs(limit)])
  }

  /** A window holds every item it can: it stops only at the end of the items
      or at the limit. */
  lemma WindowFull<T>(items: seq<T>, skip: nat, limit: int)
    ensures var r := Window(items, skip, limit).value;
      |r| == (var left := if skip <= |items| then |items| - skip else 0;
              if limit == 0 || Abs(limit) >= left then left else Abs(limit))
  {
  }

  /** With a positive limit, page `p` (counted from 0) and page `p + 1` are
      together the window of twice the size: pages neither overlap nor leave
      gaps. */
  lemma {:induction false} PagesTile<T>(items: seq<T>, p: nat, limit: nat)
    requires limit > 0
    ensures Window(items, p * limit, limit).value + Window(items, (p + 1) * limit, limit).value
            == Window(items, p * limit, 2 * limit).value
  {
    var a := Window(items, p * limit, limit).value;
    var b := Window(items, (p + 1) * limit, limit).value;
    var c := Window(items, p * limit, 2 * limit).value;
    WindowFull(items, p * limit, limit);
    WindowFull(items, (p + 1) * limit, limit);
    WindowFull(items, p * limit, 2 * limit);
    assert (p + 1) * limit == p * limit + limit;
    assert |a + b| == |c|;
    forall k | 0 <= k < |c| ensures (a + b)[k] == c[k] {
      if k >= |a| {
        assert |a| == limit;
        assert b[k - limit] == items[(p + 1) * limit + k - limit];
      }
    }
  }

  /** With a positive limit, the item at position `k` is on page `k / limit`
      (counted from 0) at position `k % limit`. */
  lemma PageOf<T>(items: seq<T>, k: nat, limit: nat)
    requires limit > 0 && k < |items|
    ensures var page := Window(items, (k / limit) * limit, limit).value;
      k % limit < |page| && page[k % limit] == items[k]
  {
    var skip := (k / limit) * limit;
    assert skip + k % limit == k;
    WindowFull(items, skip, limit);
  }
}
