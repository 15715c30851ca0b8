/** What a controller sends back: the HTTP status and, on success, the data. The JSON body's
    `success` flag is `status < 400`; the human-readable `message` is not modelled. */
module Replies {
  import opened Wrappers

  datatype Reply<T> = Reply(status: int, data: Option<T>)
  {
    predicate Success()
    {
      status < 400
    }
  }

  /** A list answer: `{ success: true, count: data.length, data }`. */
  datatype Listing<T> = Listing(count: nat, data: seq<T>)

  /** The list answer for `data`, whose `count` is always the length of `data`. */
  function ListingOf<T>(data: seq<T>): (r: Listing<T>)
    ensures r.count == |r.data| && r.data == data
  {
    Listing(|data|, data)
  }

  /** A message that is present and not empty: a truthy one in JavaScript. */
  predicate Truthy(m: Option<string>)
  {
    m.Some? && m.value != []
  }

  /** The client's `a || b || 'fallback'` over messages: the first truthy candidate, or the
      fallback when there is none. */
  function FirstMessage(candidates: seq<Option<string>>, fallback: string): (r: string)
    ensures (exists i :: 0 <= i < |candidates| && Truthy(candidates[i])) ==>
      exists i :: 0 <= i < |candidates| && Truthy(candidates[i]) && r == candidates[i].value &&
        forall j :: 0 <= j < i ==> !Truthy(candidates[j])
    ensures (forall i :: 0 <= i < |candidates| ==> !Truthy(candidates[i])) ==> r == fallback
    ensures fallback != [] ==> r != []
    decreases |candidates|
  {
    if candidates == [] then fallback
    else if Truthy(candidates[0]) then candidates[0].value
    else
      var r := FirstMessage(candidates[1..], fallback);
      assert forall i :: 1 <= i < |candidates| ==> candidates[i] == candidates[1..][i - 1];
      r
  }
}
