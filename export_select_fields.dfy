/**
 * The field-selection handlers of the export dialog. The selection is a map
 * from field name to a checkbox bit (1 = export the field, 0 = leave it out).
 * Each handler copies the map it was given, updates the copy, and passes the
 * copy on to the store (the returned map here); the map it was given is a
 * value and is never changed.
 */
module ExportSelectFields {
  import opened Wrappers

  type Bit = b: int | 0 <= b <= 1

  /** `undefined ^ 1` is 1, so an absent field counts as 0 before the flip. */
  function XorOne(b: Bit): (r: Bit)
    ensures r == 1 - b
  {
    if b == 0 then 1 else 0
  }

  /** `isEveryFieldChecked`: every field's bit is 1 (vacuously so for no fields). */
  function IsEveryFieldChecked(fields: map<string, Bit>): (r: bool)
    ensures r <==> forall f :: f in fields ==> fields[f] == 1
    ensures fields == map[] ==> r
  {
    0 !in fields.Values
  }

  /** The selection after flipping `name`. */
  function Flipped(fields: map<string, Bit>, name: string): (r: map<string, Bit>)
    ensures r.Keys == fields.Keys + {name}
    ensures r[name] == if name in fields then 1 - fields[name] else 1
    ensures forall f :: f in fields && f != name ==> r[f] == fields[f]
  {
    fields[name := XorOne(if name in fields then fields[name] else 0)]
  }

  /** The selection with every field set to `b`. */
  function AllSetTo(fields: map<string, Bit>, b: Bit): (r: map<string, Bit>)
    ensures r.Keys == fields.Keys
    ensures forall f :: f in r ==> r[f] == b
  {
    map f | f in fields :: b
  }

  /** The selection after adding `name`: new names start checked, existing ones keep their bit. */
  function WithField(fields: map<string, Bit>, name: string): (r: map<string, Bit>)
    ensures r.Keys == fields.Keys + {name}
    ensures name !in fields ==> r[name] == 1
    ensures forall f :: f in fields ==> r[f] == fields[f]
  {
    map[name := 1] + fields
  }

  /** `handleFieldCheckboxChange`: flip the bit of the field named by the event. */
  method FieldCheckboxChange(fields: map<string, Bit>, name: string) returns (updated: map<string, Bit>)
    ensures updated == Flipped(fields, name)
  {
    var copy := fields;
    var current: Bit := if name in copy then copy[name] else 0;
    copy := copy[name := XorOne(current)];
    updated := copy;
  }

  /** `handleHeaderCheckboxChange`: uncheck everything when all are checked, otherwise check everything. */
  method HeaderCheckboxChange(fields: map<string, Bit>) returns (updated: map<string, Bit>)
    ensures updated == AllSetTo(fields, if IsEveryFieldChecked(fields) then 0 else 1)
  {
    var target: Bit := if IsEveryFieldChecked(fields) then 0 else 1;
    var copy := fields;
    var pending := fields.Keys;
    while pending != {}
      invariant pending <= fields.Keys
      invariant copy.Keys == fields.Keys
      invariant forall f :: f in copy ==> copy[f] == if f in pending then fields[f] else target
      decreases pending
    {
      var f :| f in pending;
      copy := copy[f := target];
      pending := pending - {f};
    }
    updated := copy;
  }

  /** `handleAddFieldSubmit`: on Enter, add the typed name; any other key changes nothing (None: no update). */
  method AddFieldSubmit(fields: map<string, Bit>, key: string, name: string) returns (updated: Option<map<string, Bit>>)
    ensures key != "Enter" <==> updated.None?
    ensures updated.Some? ==> updated.value == WithField(fields, name)
  {
    if key == "Enter" {
      var added := map[name := 1];
      added := added + fields;
      updated := Some(added);
    } else {
      updated := None;
    }
  }

  /** Flipping a present field twice restores the selection. */
  lemma FlipTwice(fields: map<string, Bit>, name: string)
    requires name in fields
    ensures Flipped(Flipped(fields, name), name) == fields
  {
  }

  /** The header toggle leaves no field checked when all were, and every field checked otherwise. */
  lemma HeaderToggleOutcome(fields: map<string, Bit>)
    ensures var r := AllSetTo(fields, if IsEveryFieldChecked(fields) then 0 else 1);
            && r.Keys == fields.Keys
            && (IsEveryFieldChecked(fields) ==> forall f :: f in r ==> r[f] == 0)
            && (!IsEveryFieldChecked(fields) ==> IsEveryFieldChecked(r))
            && (IsEveryFieldChecked(fields) && fields != map[] ==> !IsEveryFieldChecked(r))
  {
    var r := AllSetTo(fields, if IsEveryFieldChecked(fields) then 0 else 1);
    if IsEveryFieldChecked(fields) && fields != map[] {
      var f :| f in fields;
      assert r[f] == 0;
    }
  }

  /** Adding a field that is already listed changes nothing. */
  lemma AddExistingFieldIsNoOp(fields: map<string, Bit>, name: string)
    requires name in fields
    ensures WithField(fields, name) == fields
  {
  }
}
