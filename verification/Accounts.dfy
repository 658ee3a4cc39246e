/** Which workspace a Microsoft identity belongs to. */
module Accounts {

  predicate IsHex(c: char) {
    '0' <= c <= '9' || 'a' <= c <= 'f'
  }

  // A UUID is its 32 lower-case hexadecimal digits.
  type Uuid = s: string | |s| == 32 && forall i :: 0 <= i < |s| ==> IsHex(s[i])
    witness "00000000000000000000000000000000"

  const CONSUMER_TENANT: Uuid := "9188040d6c674c5bb11236a304b66dad"

  // The usual 8-4-4-4-12 spelling.
  function UuidText(u: Uuid): string {
    u[..8] + "-" + u[8..12] + "-" + u[12..16] + "-" + u[16..20] + "-" + u[20..]
  }

  // Drops the dashes again.
  function WithoutDashes(s: string): string
    requires |s| == 36
  {
    s[..8] + s[9..13] + s[14..18] + s[19..23] + s[24..]
  }

  lemma TextRoundTrip(u: Uuid)
    ensures |UuidText(u)| == 36 && WithoutDashes(UuidText(u)) == u
  {
    var t := UuidText(u);
    assert t[..8] == u[..8] && t[9..13] == u[8..12] && t[14..18] == u[12..16];
    assert t[19..23] == u[16..20] && t[24..] == u[20..];
  }

  predicate IsPersonal(entraTenant: Uuid) {
    entraTenant == CONSUMER_TENANT
  }

  const PERSONAL_PREFIX := "personal:"
  const TENANT_PREFIX := "tenant:"

  function ScopeKey(entraTenant: Uuid, objectId: Uuid): string {
    if IsPersonal(entraTenant) then PERSONAL_PREFIX + UuidText(entraTenant) + ":" + UuidText(objectId)
    else TENANT_PREFIX + UuidText(entraTenant)
  }

  // The same organisation, or the same personal account.
  predicate SameScope(tenant1: Uuid, object1: Uuid, tenant2: Uuid, object2: Uuid) {
    tenant1 == tenant2 && (IsPersonal(tenant1) ==> object1 == object2)
  }

  lemma PersonalKey(objectId: Uuid)
    ensures |ScopeKey(CONSUMER_TENANT, objectId)| == 82
    ensures ScopeKey(CONSUMER_TENANT, objectId)[46..] == UuidText(objectId)
  {
    TextRoundTrip(CONSUMER_TENANT);
    TextRoundTrip(objectId);
    var head := PERSONAL_PREFIX + UuidText(CONSUMER_TENANT) + ":";
    assert |head| == 46;
    assert (head + UuidText(objectId))[46..] == UuidText(objectId);
  }

  lemma TenantKey(entraTenant: Uuid, objectId: Uuid)
    requires !IsPersonal(entraTenant)
    ensures |ScopeKey(entraTenant, objectId)| == 43
    ensures ScopeKey(entraTenant, objectId)[7..] == UuidText(entraTenant)
  {
    TextRoundTrip(entraTenant);
    assert (TENANT_PREFIX + UuidText(entraTenant))[7..] == UuidText(entraTenant);
  }

  lemma TextOfParts(u: Uuid, a: string, b: string, c: string, d: string, e: string)
    requires |a| == 8 && |b| == |c| == |d| == 4 && u == a + b + c + d + e
    ensures UuidText(u) == a + "-" + b + "-" + c + "-" + d + "-" + e
  {
    assert u[..8] == a && u[8..12] == b && u[12..16] == c && u[16..20] == d && u[20..] == e;
  }

  // How the two kinds of key are spelled.
  lemma KeySpelling(entraTenant: Uuid, objectId: Uuid)
    ensures ScopeKey(entraTenant, objectId) ==
      if entraTenant == "9188040d" + "6c67" + "4c5b" + "b112" + "36a304b66dad"
      then "personal:" + UuidText(entraTenant) + ":" + UuidText(objectId) else "tenant:" + UuidText(entraTenant)
  {
    assert CONSUMER_TENANT == "9188040d" + "6c67" + "4c5b" + "b112" + "36a304b66dad";
  }

  // The key is injective across both prefixes.
  lemma ScopeKeyExactly(tenant1: Uuid, object1: Uuid, tenant2: Uuid, object2: Uuid)
    ensures ScopeKey(tenant1, object1) == ScopeKey(tenant2, object2)
       <==> SameScope(tenant1, object1, tenant2, object2)
  {
    TextRoundTrip(tenant1);
    TextRoundTrip(tenant2);
    TextRoundTrip(object1);
    TextRoundTrip(object2);
    if IsPersonal(tenant1) {
      PersonalKey(object1);
    } else {
      TenantKey(tenant1, object1);
    }
    if IsPersonal(tenant2) {
      PersonalKey(object2);
    } else {
      TenantKey(tenant2, object2);
    }
  }
}
