/** The built-in device table, the start-up URL and the zoom bounds (constants.ts). */
module Constants {
  import opened Types
  import Text

  /** The seven built-in presets, in declaration order. */
  const PRESETS: seq<Preset> := [
    Preset("desktop-hd", "Desktop HD", Int(1920), Int(1080), Desktop),
    Preset("laptop", "Laptop", Int(1440), Int(900), Laptop),
    Preset("laptop-small", "Small Laptop", Int(1366), Int(768), Laptop),
    Preset("tablet-portrait", "Tablet Portrait", Int(768), Int(1024), Tablet),
    Preset("tablet-landscape", "Tablet Landscape", Int(1024), Int(768), Tablet),
    Preset("mobile-large", "Mobile Large", Int(414), Int(896), Mobile),
    Preset("mobile-std", "Mobile Standard", Int(375), Int(667), Mobile)
  ]

  const DEFAULT_URL: string := "http://localhost:3000"
  const INITIAL_SCALE: real := 0.4
  const MIN_SCALE: real := 0.1
  const MAX_SCALE: real := 1.0

  /** The id prefix that marks a preset as user-created and therefore deletable. */
  const CUSTOM_PREFIX: string := "custom-"

  /** `id.startsWith('custom-')`. */
  predicate IsCustomId(id: string)
    ensures IsCustomId(id) ==> 7 <= |id| && id[0] == 'c' && id[6] == '-'
  {
    |CUSTOM_PREFIX| <= |id| && id[..|CUSTOM_PREFIX|] == CUSTOM_PREFIX
  }

  /** There are seven built-ins and no two share an id. */
  lemma BuiltinsDistinct()
    ensures |PRESETS| == 7
    ensures UniqueIds(PRESETS)
  {
  }

  /** No built-in id carries the custom prefix: built-ins are never offered for deletion. */
  lemma BuiltinsNotCustom()
    ensures forall p :: p in PRESETS ==> !IsCustomId(p.id)
  {
    forall p | p in PRESETS
      ensures !IsCustomId(p.id)
    {
      NotCustomByFirstChar(p.id);
    }
  }

  /** An id whose first character is not `c` cannot carry the custom prefix. */
  lemma NotCustomByFirstChar(id: string)
    requires id != [] && id[0] != 'c'
    ensures !IsCustomId(id)
  {
  }

  /** Every built-in size is an integer of at least 375 pixels in both directions. */
  lemma BuiltinSizes()
    ensures forall p :: p in PRESETS ==> p.width.Int? && p.width.value >= 375 && p.height.Int? && p.height.value >= 375
  {
  }

  /** The zoom bounds are ordered and both automatic zoom levels lie within them. */
  lemma ScaleBounds()
    ensures MIN_SCALE <= INITIAL_SCALE <= MAX_SCALE
    ensures MIN_SCALE <= 0.4 <= MAX_SCALE && MIN_SCALE <= 1.0 <= MAX_SCALE
  {
  }
}
