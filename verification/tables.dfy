/** The fixed projectile and quantity vocabularies of the normalisation library. */
module Tables {
  import opened Wrappers

  /** Raw projectile code to canonical one-letter code; helium-3 and `H` share the code `h`. */
  const ProjectileMap: map<string, string> :=
    map["N" := "n", "P" := "p", "G" := "g", "D" := "d", "A" := "a", "HE3" := "h", "H" := "h"]

  /** The quantity codes the build accepts (`MACS` is the Maxwellian-averaged capture cross-section). */
  const SupportedQuantities: set<string> := {"SIG", "DA", "DE", "FY", "MACS"}

  /** `PROJECTILE_MAP.get(raw)`. */
  function ProjectileCode(raw: string): (r: Option<string>)
    ensures r.Some? <==> raw in {"N", "P", "G", "D", "A", "HE3", "H"}
    ensures raw == "N" ==> r == Some("n")
    ensures raw == "P" ==> r == Some("p")
    ensures raw == "G" ==> r == Some("g")
    ensures raw == "D" ==> r == Some("d")
    ensures raw == "A" ==> r == Some("a")
    ensures raw == "HE3" || raw == "H" ==> r == Some("h")
  {
    if raw in ProjectileMap then Some(ProjectileMap[raw]) else None
  }

  /** The only two raw codes that share a canonical code are `HE3` and `H`. */
  lemma ProjectileCollapse(x: string, y: string)
    requires x != y && ProjectileCode(x).Some? && ProjectileCode(x) == ProjectileCode(y)
    ensures {x, y} == {"HE3", "H"}
  {
  }

  lemma ProjectileExamples()
    ensures ProjectileCode("N") == Some("n")
    ensures ProjectileCode("HE3") == ProjectileCode("H") == Some("h")
    ensures ProjectileCode("X") == None
    ensures ProjectileCode("n") == None
  {
  }
}
