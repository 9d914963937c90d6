/** The fixed-layout record `Structure` of index.ts: named fields, each with
    its own buffer viewed as 16-bit slots and an encoding recorded in `meta`. */
module Structures {
  import opened Wrappers
  import opened FieldCodec

  /** A constructor argument `[key, encoding, length?]`. */
  datatype Descriptor = Descriptor(key: string, encoding: Encoding, length: Option<int>)

  /** The errors the model's operations throw: the typed-array runtime's
      RangeError, and the TypeError of `set`/`get` on a key `meta` lacks. */
  datatype StructureError = RangeError | UnknownField

  /** Keys the model excludes because the constructor's `this[key] = view`
      would overwrite the record's own members or prototype. */
  const Reserved: set<string> := {"meta", "set", "get", "__proto__"}

  /** The byte length the constructor asks of ArrayBuffer:
      `(length || 2) * (utf16 ? 2 : 1)`, where a missing length and 0 both
      fall back to 2. */
  function ByteLength(d: Descriptor): (r: int)
    ensures d.length.None? || d.length.value == 0 ==> r == if d.encoding == Utf16 then 4 else 2
    ensures d.length.Some? && d.length.value != 0 ==>
      r == if d.encoding == Utf16 then 2 * d.length.value else d.length.value
  {
    var n := if d.length.None? || d.length.value == 0 then 2 else d.length.value;
    n * if d.encoding == Utf16 then 2 else 1
  }

  /** The number of 16-bit slots of a descriptor's view, or the RangeError
      thrown for a negative byte length or one that is not a multiple of 2. */
  function SlotCount(d: Descriptor): (r: Result<nat, StructureError>)
    ensures r.Success? <==>
      d.length.None? || d.length.value == 0 ||
      (d.length.value > 0 && (d.encoding == Utf16 || d.length.value % 2 == 0))
    ensures r.Failure? ==> r.error == RangeError
    ensures r.Success? ==> r.value >= 1 && 2 * r.value == ByteLength(d)
    ensures d.encoding == Utf16 && d.length.Some? && d.length.value > 0 ==>
      r == Success(d.length.value)
    ensures d.encoding == Utf16 && (d.length.None? || d.length.value == 0) ==> r == Success(2)
    ensures d.encoding == Uint16 && d.length.None? ==> r == Success(1)
  {
    var bytes := ByteLength(d);
    if bytes < 0 || bytes % 2 != 0 then Failure(RangeError) else Success(bytes / 2)
  }

  /** Descriptors the constructor accepts: every view can be allocated and no
      key is reserved. */
  predicate WellFormed(args: seq<Descriptor>)
  {
    forall i :: 0 <= i < |args| ==> SlotCount(args[i]).Success? && args[i].key !in Reserved
  }

  /** A field as the finished constructor leaves it: its encoding and the
      number of slots of its view. */
  datatype Field = Field(encoding: Encoding, slots: nat)

  /** The keys named by the descriptors. */
  function Keys(args: seq<Descriptor>): set<string>
  {
    set i | 0 <= i < |args| :: args[i].key
  }

  /** Descriptor i is the last one naming its key. */
  predicate LastOfKey(args: seq<Descriptor>, i: nat)
    requires i < |args|
  {
    forall j :: i < j < |args| ==> args[j].key != args[i].key
  }

  /** The fields after the constructor's loop over `args`: one per key, taken
      from the last descriptor naming it, so a repeated key replaces the
      earlier field. */
  function Layout(args: seq<Descriptor>): (r: map<string, Field>)
    requires forall i :: 0 <= i < |args| ==> SlotCount(args[i]).Success?
    ensures forall k :: k in r ==> r[k].slots >= 1
    decreases |args|
  {
    if args == [] then map[]
    else
      var n := |args| - 1;
      var d := args[n];
      Layout(args[..n])[d.key := Field(d.encoding, SlotCount(d).value)]
  }

  /** Every key named by a descriptor has a field, and no other key does. */
  lemma {:induction false} LayoutKeys(args: seq<Descriptor>)
    requires forall j :: 0 <= j < |args| ==> SlotCount(args[j]).Success?
    ensures Layout(args).Keys == Keys(args)
    decreases |args|
  {
    if args != [] {
      KeysOfPrefix(args);
      LayoutKeys(args[..|args| - 1]);
    }
  }

  /** A key's field comes from the last descriptor naming it: a repeated key
      silently replaces the earlier field. */
  lemma {:induction false} LayoutLastWins(args: seq<Descriptor>, i: nat)
    requires forall j :: 0 <= j < |args| ==> SlotCount(args[j]).Success?
    requires i < |args| && LastOfKey(args, i)
    ensures args[i].key in Layout(args)
    ensures Layout(args)[args[i].key] == Field(args[i].encoding, SlotCount(args[i]).value)
    decreases |args|
  {
    var n := |args| - 1;
    if i < n {
      LastOfKeyInPrefix(args);
      LayoutLastWins(args[..n], i);
      assert args[..n][i] == args[i];
    }
  }

  /** The keys of `args` are those of all its descriptors but the last, and
      the key of the last. */
  lemma KeysOfPrefix(args: seq<Descriptor>)
    requires args != []
    ensures Keys(args) == Keys(args[..|args| - 1]) + {args[|args| - 1].key}
  {
  }

  /** A descriptor other than the last that is last of its key in `args`
      names another key than the last one and is last of its key among all
      descriptors but the last. */
  lemma LastOfKeyInPrefix(args: seq<Descriptor>)
    requires args != []
    ensures forall i :: 0 <= i < |args| - 1 && LastOfKey(args, i) ==>
      LastOfKey(args[..|args| - 1], i) && args[i].key != args[|args| - 1].key
  {
  }

  /** The constructor's loop step: one more descriptor sets its key's field. */
  lemma LayoutStep(args: seq<Descriptor>, i: nat)
    requires i < |args| && forall j :: 0 <= j < |args| ==> SlotCount(args[j]).Success?
    ensures Layout(args[..i + 1]) ==
      Layout(args[..i])[args[i].key := Field(args[i].encoding, SlotCount(args[i]).value)]
  {
    assert args[..i + 1][..i] == args[..i];
  }

  /** The constructor's loop: one fresh, zero-filled view per descriptor,
      stored under its key together with its encoding. */
  method Allocate(args: seq<Descriptor>)
    returns (meta: map<string, Encoding>, views: map<string, array<U16>>)
    requires WellFormed(args)
    ensures meta.Keys == views.Keys == Layout(args).Keys
    ensures forall k :: k in meta ==> Field(meta[k], views[k].Length) == Layout(args)[k]
    ensures forall k :: k in views ==> fresh(views[k]) && views[k][..] == Zeros(views[k].Length)
    ensures forall k, k' :: k in views && k' in views && k != k' ==> views[k] != views[k']
  {
    meta, views := map[], map[];
    ghost var fields: map<string, Field> := map[];
    for i := 0 to |args|
      invariant fields == Layout(args[..i])
      invariant meta.Keys == views.Keys == fields.Keys
      invariant forall k :: k in views ==>
        Field(meta[k], views[k].Length) == fields[k] &&
        fresh(views[k]) && views[k][..] == Zeros(views[k].Length) &&
        forall k' :: k' in views && k != k' ==> views[k] != views[k']
    {
      var d := args[i];
      var view := new U16[SlotCount(d).value](_ => 0);
      assert view[..] == Zeros(view.Length);
      assert forall k :: k in views ==> views[k] != view;
      LayoutStep(args, i);
      meta := meta[d.key := d.encoding];
      views := views[d.key := view];
      fields := fields[d.key := Field(d.encoding, view.Length)];
    }
    assert args[..|args|] == args;
  }

  class Structure {
    var meta: map<string, Encoding>
    var views: map<string, array<U16>>

    /** Every key of `meta` has a view of at least one slot, and no two keys
        share a view. */
    ghost predicate Valid()
      reads this
    {
      meta.Keys == views.Keys &&
      (forall k :: k in views ==> views[k].Length >= 1) &&
      (forall k, k' :: k in views && k' in views && k != k' ==> views[k] != views[k'])
    }

    /** Allocates one fresh, zero-filled view per key, sized by its last
        descriptor, and records that descriptor's encoding in `meta`. */
    constructor (args: seq<Descriptor>)
      requires WellFormed(args)
      ensures Valid()
      ensures meta.Keys == Keys(args) == Layout(args).Keys
      ensures forall k :: k in meta ==> Field(meta[k], views[k].Length) == Layout(args)[k]
      ensures forall k :: k in views ==> fresh(views[k]) && views[k][..] == Zeros(views[k].Length)
    {
      var m, v := Allocate(args);
      LayoutKeys(args);
      meta, views := m, v;
    }

    /** `set`: writes `value` into the field's view with the setter its
        encoding selects; only that view changes. */
    method Set(key: string, value: Value) returns (r: Outcome<StructureError>)
      requires Valid()
      requires key in meta && meta[key] == Uint16 ==> value.Number?
      modifies if key in views then {views[key]} else {}
      ensures Valid() && meta == old(meta) && views == old(views)
      ensures r == if key in meta then Pass else Fail(UnknownField)
      ensures key in views ==> views[key][..] == WriteField(meta[key], old(views[key][..]), value)
      ensures forall k :: k in views && k != key ==> views[k][..] == old(views[k][..])
    {
      if key !in meta {
        return Fail(UnknownField);
      }
      r := Pass;
      var view := views[key];
      match meta[key]
      case Utf16 =>
        if value.Text? {
          SetUtf16(view, value.units);
        }
      case Uint16 =>
        SetUint16(view, value.n);
    }

    /** `get` after `set` on any key: an unknown key fails; a u16 field reads
        back the number wrapped to 16 bits; a utf16 field reads back the
        string cut to the field's capacity, or followed by what the slots held
        past its end; a number on a utf16 field leaves the text as it was. */
    method SetThenGet(key: string, value: Value) returns (r: Result<Value, StructureError>)
      requires Valid()
      requires key in meta && meta[key] == Uint16 ==> value.Number?
      modifies if key in views then {views[key]} else {}
      ensures Valid() && meta == old(meta) && views == old(views)
      ensures key !in meta ==> r == Failure(UnknownField)
      ensures key in meta && meta[key] == Uint16 ==> r == Success(Number(ToUint16(value.n)))
      ensures key in meta && meta[key] == Utf16 && value.Text? ==>
        var cap, s := views[key].Length, value.units;
        r == Success(Text(if |s| >= cap then s[..cap] else s + old(views[key][..])[|s|..]))
      ensures key in meta && meta[key] == Utf16 && value.Number? ==>
        r == Success(Text(old(views[key][..])))
    {
      var _ := Set(key, value);
      if key in meta && meta[key] == Utf16 && value.Text? {
        TextReadAfterWrite(old(views[key][..]), value.units);
      }
      r := Get(key);
    }

    /** `get`: reads the field's view with the getter its encoding selects. */
    function Get(key: string): (r: Result<Value, StructureError>)
      requires Valid()
      reads this, views.Values
      ensures r.Failure? <==> key !in meta
      ensures r.Failure? ==> r.error == UnknownField
      ensures r.Success? && meta[key] == Utf16 ==> r.value == Text(views[key][..])
      ensures r.Success? && meta[key] == Uint16 ==> r.value == Number(views[key][0])
    {
      if key !in meta then Failure(UnknownField)
      else Success(ReadField(meta[key], views[key][..]))
    }
  }

  /** The descriptors of the record test in `index.test.ts`: two utf16 fields of
      capacity 4 and 5, and a u16 field. */
  const JackBlackArgs: seq<Descriptor> :=
    [Descriptor("name", Utf16, Some(4)),
     Descriptor("lastName", Utf16, Some(5)),
     Descriptor("age", Uint16, None)]

  /** The code units of "Jack" and "Black". */
  const Jack: seq<U16> := [74, 97, 99, 107]
  const Black: seq<U16> := [66, 108, 97, 99, 107]

  /** The record test's layout: 4, 5 and 1 slots. */
  lemma JackBlackLayout()
    ensures WellFormed(JackBlackArgs)
    ensures "name" in Layout(JackBlackArgs) && Layout(JackBlackArgs)["name"] == Field(Utf16, 4)
    ensures "lastName" in Layout(JackBlackArgs) && Layout(JackBlackArgs)["lastName"] == Field(Utf16, 5)
    ensures "age" in Layout(JackBlackArgs) && Layout(JackBlackArgs)["age"] == Field(Uint16, 1)
  {
  }

  /** The record test of `index.test.ts`: the fields set to "Jack", "Black" and 53 read
      back unchanged. */
  method JackBlack() returns (name: Result<Value, StructureError>,
                              lastName: Result<Value, StructureError>,
                              age: Result<Value, StructureError>)
    ensures name == Success(Text(Jack))
    ensures lastName == Success(Text(Black))
    ensures age == Success(Number(53))
  {
    JackBlackLayout();
    var record := new Structure(JackBlackArgs);
    assert record.meta["name"] == Utf16 && record.views["name"].Length == 4;
    assert record.meta["lastName"] == Utf16 && record.views["lastName"].Length == 5;
    assert record.meta["age"] == Uint16;
    ghost var slots := record.views["name"][..];
    var _ := record.Set("name", Text(Jack));
    TextRoundTrip(slots, Jack);
    assert ReadField(Utf16, record.views["name"][..]) == Text(Jack);
    slots := record.views["lastName"][..];
    var _ := record.Set("lastName", Text(Black));
    TextRoundTrip(slots, Black);
    assert ReadField(Utf16, record.views["lastName"][..]) == Text(Black);
    var _ := record.Set("age", Number(53));
    name := record.Get("name");
    lastName := record.Get("lastName");
    age := record.Get("age");
  }
}
