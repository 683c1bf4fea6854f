/**
 * The checkout request: a signed-in caller asking for a price is sent to
 * the payment provider on behalf of a workspace the caller owns.
 */
module CheckoutRoute {
  import opened Common
  import opened Store

  /** The arguments the handler passes to the payment provider's checkout
      session: the price, the caller and the owned workspace. */
  datatype CheckoutRequest = CheckoutRequest(priceId: Field, userId: string, workspaceId: string)

  predicate Owns(t: Tables, userId: string, workspaceId: string) {
    exists m :: m in t.members && m.data.userId == userId && m.data.role == OWNER && m.data.workspaceId == workspaceId
  }

  /** `workspaceMember.findFirst({ where: { userId, role: "OWNER" } })`,
      taken as the first such row in table order. */
  function FirstOwned(members: seq<Row<Member>>, userId: string): (r: Option<Row<Member>>)
    ensures r.Some? <==> exists m :: m in members && m.data.userId == userId && m.data.role == OWNER
    ensures r.Some? ==> r.value in members && r.value.data.userId == userId && r.value.data.role == OWNER
  {
    if members == [] then None
    else if members[0].data.userId == userId && members[0].data.role == OWNER then Some(members[0])
    else
      assert forall m :: m in members <==> m == members[0] || m in members[1..];
      FirstOwned(members[1..], userId)
  }

  /** POST /api/stripe/checkout. A missing or falsy price is 400, and so is
      a caller owning no workspace; otherwise the checkout session is
      requested for the caller and a workspace the caller owns. */
  function Checkout(t: Tables, caller: Option<string>, priceId: Field): (r: Reply<CheckoutRequest>)
    ensures caller.None? ==> r == Unauthorized()
    ensures caller.Some? && !Truthy(priceId) ==> r == Err(400, "Price ID required")
    ensures caller.Some? && Truthy(priceId) && !(exists w :: Owns(t, caller.value, w)) ==>
              r == Err(400, "No workspace found where you are an owner")
    ensures r.Ok? <==> caller.Some? && Truthy(priceId) && exists w :: Owns(t, caller.value, w)
    ensures r.Ok? ==> r.status == 200 && r.value.priceId == priceId && r.value.userId == caller.value
    ensures r.Ok? ==> Owns(t, caller.value, r.value.workspaceId)
  {
    if caller.None? then Unauthorized()
    else if !Truthy(priceId) then Err(400, "Price ID required")
    else
      match FirstOwned(t.members, caller.value)
      case None => Err(400, "No workspace found where you are an owner")
      case Some(m) =>
        assert Owns(t, caller.value, m.data.workspaceId);
        Ok(200, CheckoutRequest(priceId, caller.value, m.data.workspaceId))
  }
}
