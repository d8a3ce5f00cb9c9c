/** The built-in model registry and the default persona library. */
module Constants {
  import opened Types

  /** Identifiers of the selectable models, in menu order. */
  const ModelIds: seq<string> := ["gemini-3-flash-preview", "gemini-3-pro-preview", "gemini-2.5-flash-lite-latest"]

  /** The persona library a fresh session starts with. */
  const DefaultPersonas: seq<Persona> := [
    Persona("p1", "General Assistant",
      "You are a helpful and polite AI assistant. Provide concise and accurate answers.",
      "Helpful and polite AI assistant"),
    Persona("p2", "Python Expert",
      "You are a Senior Python Developer. Provide clean, idiomatic code examples with explanations.",
      "Master of Python programming"),
    Persona("p3", "Creative Writer",
      "You are a world-class creative writer. Use evocative language and compelling narratives.",
      "Engaging storytelling and prose"),
    Persona("p4", "Tech Translator",
      "You excel at explaining complex technical concepts to non-technical audiences using analogies.",
      "Explaining complex tech simply")
  ]

  /** No two personas of `ps` share an id. */
  predicate DistinctIds(ps: seq<Persona>) {
    forall i, j :: 0 <= i < j < |ps| ==> ps[i].id != ps[j].id
  }

  /** The default library is non-empty, its ids are pairwise distinct and none is empty. */
  lemma DefaultPersonasWellFormed()
    ensures |DefaultPersonas| == 4 && DistinctIds(DefaultPersonas)
    ensures forall p :: p in DefaultPersonas ==> p.id != ""
    ensures |ModelIds| == 3 && ModelIds[0] != ""
  {
  }
}
