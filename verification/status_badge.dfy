/** The status badge of the incomplete-mappings table, chosen from a count. */
module StatusBadge {

  datatype Variant = Destructive | Warning

  datatype Badge = Badge(variant: Variant, caption: string)

  const NoMappings: Badge := Badge(Destructive, "No Mappings")
  const OneMapping: Badge := Badge(Warning, "1 Mapping")

  /** A zero count gets the destructive badge, every other count the warning. */
  function GetStatusBadge(count: int): (b: Badge)
    ensures b == NoMappings || b == OneMapping
    ensures b == NoMappings <==> count == 0
    ensures b.variant == Destructive <==> b.caption == "No Mappings"
  {
    if count == 0 then NoMappings else OneMapping
  }

  /** Only the zero test matters: two or more mappings still read "1 Mapping". */
  lemma LabelIgnoresMagnitude(count: int)
    requires count >= 2
    ensures GetStatusBadge(count).caption == "1 Mapping"
  {
  }
}
