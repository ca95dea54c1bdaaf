/** The backend endpoints that the balancers hand out. */
module Endpoints {

  datatype Endpoint = Endpoint(
    weight: int,
    name: string,
    db: string,
    user: string,
    password: string,
    addr: string
  )

  /** No two endpoints share a name: `add` ignores a name it already holds. */
  predicate DistinctNames(items: seq<Endpoint>) {
    forall j, k | 0 <= j < k < |items| :: items[j].name != items[k].name
  }

  predicate HasName(items: seq<Endpoint>, name: string) {
    exists j | 0 <= j < |items| :: items[j].name == name
  }

  /** `item_exists`: the linear search both balancers use before adding. */
  method ItemExists(items: seq<Endpoint>, name: string) returns (found: bool)
    ensures found <==> HasName(items, name)
  {
    for j := 0 to |items|
      invariant !HasName(items[..j], name)
    {
      if items[j].name == name {
        return true;
      }
      assert items[..j + 1] == items[..j] + [items[j]];
    }
    assert items[..|items|] == items;
    return false;
  }
}
