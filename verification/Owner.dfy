/** The deployment owner (owner.ts). */
module Owner {
  import opened Ordering

  /** The owner's tenant id, in any letter case; `owner` itself is lower case. */
  predicate IsOwner(tenant: string, owner: string) { tenant != "" && Lowered(tenant) == owner }

  /** The owner is a tenant whose id is the owner's, character by character, but for capital letters. */
  lemma OwnerByCharacter(tenant: string, owner: string)
    ensures IsOwner(tenant, owner) <==>
      && tenant != "" && |tenant| == |owner|
      && forall i | 0 <= i < |tenant| ::
        owner[i] == if 'A' <= tenant[i] <= 'Z' then (tenant[i] as int + 32) as char else tenant[i]
  {
    assert IsOwner(tenant, owner) ==> forall i | 0 <= i < |tenant| :: Lowered(tenant)[i] == owner[i];
  }
}
