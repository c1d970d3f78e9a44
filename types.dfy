/** The device preset record and the device category (types.ts). */
module Types {
  /** The four device categories; `Mobile` is the form's default. */
  datatype DeviceType = Desktop | Laptop | Tablet | Mobile

  /**
   * A JavaScript number produced by `parseInt`: an integer, or NaN when the
   * text has no leading digits. Built-in presets always hold integers.
   */
  datatype JsInt = Int(value: int) | NaN

  /** A device preset: identity, display name, native pixel size and category. */
  datatype Preset = Preset(id: string, name: string, width: JsInt, height: JsInt, kind: DeviceType)

  /** The ids of a preset list, in list order (`presets.map(p => p.id)`). */
  function Ids(ps: seq<Preset>): (r: seq<string>)
    ensures |r| == |ps|
    ensures forall i :: 0 <= i < |ps| ==> r[i] == ps[i].id
  {
    seq(|ps|, i requires 0 <= i < |ps| => ps[i].id)
  }

  /** No two presets of the list share an id. */
  predicate UniqueIds(ps: seq<Preset>)
  {
    forall i, j :: 0 <= i < j < |ps| ==> ps[i].id != ps[j].id
  }
}
