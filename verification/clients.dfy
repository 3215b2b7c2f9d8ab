/** The client record and the lookup `find(clients, { accountNum: ref })`
    that maps an index hit back to a record. */
module Clients {
  import opened Wrappers

  /** One directory entry; `accountNum` is the index's reference key. */
  datatype Client = Client(id: string, name: string, dob: string, postcode: string, accountNum: string)

  /** Position of the first client whose account number is `ref`, or `|cs|`
      when there is none: the scan lodash `find` performs from index 0. */
  function FirstAccountIndex(cs: seq<Client>, ref: string): (k: nat)
    ensures k <= |cs|
    ensures forall j :: 0 <= j < k ==> cs[j].accountNum != ref
    ensures k < |cs| ==> cs[k].accountNum == ref
    decreases |cs|
  {
    if |cs| == 0 || cs[0].accountNum == ref then 0
    else 1 + FirstAccountIndex(cs[1..], ref)
  }

  /** `o` is what looking `ref` up in `cs` should give: the first record
      carrying that account number, or nothing if no record carries it. */
  ghost predicate IsFirstWithAccount(cs: seq<Client>, ref: string, o: Option<Client>) {
    match o
    case None => forall c :: c in cs ==> c.accountNum != ref
    case Some(c) =>
      exists i :: 0 <= i < |cs| && cs[i] == c && c.accountNum == ref
        && forall j :: 0 <= j < i ==> cs[j].accountNum != ref
  }

  /** `find(clients, { accountNum: ref })`: `undefined` (`None`) when no
      client matches. */
  function FindByAccount(cs: seq<Client>, ref: string): (r: Option<Client>)
    ensures IsFirstWithAccount(cs, ref, r)
    ensures r.Some? <==> exists c :: c in cs && c.accountNum == ref
  {
    var k := FirstAccountIndex(cs, ref);
    if k < |cs| then Some(cs[k]) else None
  }
}
