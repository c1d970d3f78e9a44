/**
 * The "Add Custom Device" form (components/AddDeviceModal.tsx): four text-backed
 * fields and a submit handler that validates them, builds a preset with a
 * timestamp-based id and hands it to its two callbacks.
 */
module AddDeviceModal {
  import opened Types
  import opened Text
  import opened Constants

  /** A callback invocation made by the form, in the order it is made. */
  datatype Event = OnAdd(preset: Preset) | OnClose

  /** The id given to a preset created at time `now` (milliseconds, `Date.now()`). */
  function CustomId(now: nat): (id: string)
    ensures IsCustomId(id)
    ensures forall p :: p in PRESETS ==> p.id != id
  {
    BuiltinsNotCustom();
    assert (CUSTOM_PREFIX + ToDecimal(now))[..|CUSTOM_PREFIX|] == CUSTOM_PREFIX;
    CUSTOM_PREFIX + ToDecimal(now)
  }

  /** Presets created at different times get different ids. */
  lemma CustomIdInjective(m: nat, n: nat)
    requires CustomId(m) == CustomId(n)
    ensures m == n
  {
    assert ToDecimal(m) == CustomId(m)[|CUSTOM_PREFIX|..];
    assert ToDecimal(n) == CustomId(n)[|CUSTOM_PREFIX|..];
    ToDecimalInjective(m, n);
  }

  /** The size fields' initial texts parse to the initial 375 by 667 size. */
  lemma InitialSizeParses()
    ensures ParseInt("375") == Int(375) && ParseInt("667") == Int(667)
  {
    assert ToDecimal(375) == "375";
    assert ToDecimal(667) == "667";
    ParseIntToDecimal(375);
    ParseIntToDecimal(667);
  }

  class Form {
    var name: string
    var width: string
    var height: string
    var kind: DeviceType

    /** The form as first shown and as left after a successful submit. */
    predicate IsInitial()
      reads this
    {
      name == "" && width == "375" && height == "667" && kind == Mobile
    }

    constructor ()
      ensures IsInitial()
    {
      name := "";
      width := "375";
      height := "667";
      kind := Mobile;
    }

    method SetName(s: string)
      modifies this`name
      ensures name == s
    {
      name := s;
    }

    method SetWidth(s: string)
      modifies this`width
      ensures width == s
    {
      width := s;
    }

    method SetHeight(s: string)
      modifies this`height
      ensures height == s
    {
      height := s;
    }

    method SetKind(k: DeviceType)
      modifies this`kind
      ensures kind == k
    {
      kind := k;
    }

    /**
     * `handleSubmit`: with any field empty nothing happens; otherwise the new
     * preset is passed to `onAdd`, then `onClose` is called, and the form is reset.
     */
    method Submit(now: nat) returns (events: seq<Event>)
      modifies this
      ensures old(name) == "" || old(width) == "" || old(height) == "" ==>
        events == [] && unchanged(this)
      ensures old(name) != "" && old(width) != "" && old(height) != "" ==>
        events == [OnAdd(Preset(CustomId(now), old(name), ParseInt(old(width)), ParseInt(old(height)), old(kind))), OnClose]
        && IsInitial()
    {
      if name == "" || width == "" || height == "" {
        return [];
      }
      var preset := Preset(CustomId(now), name, ParseInt(width), ParseInt(height), kind);
      events := [OnAdd(preset), OnClose];
      name := "";
      width := "375";
      height := "667";
      kind := Mobile;
    }
  }
}
