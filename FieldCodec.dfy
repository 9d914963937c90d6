/** The per-encoding setters and getters of a Structure field (`Utf16Setter`,
    `Uint16Setter`, `Utf16Getter`, `Uint16Getter` and the two factories in
    index.ts). A field's storage is a view of 16-bit slots. */
module FieldCodec {

  /** One 16-bit slot of a view; also one UTF-16 code unit of a string. */
  type U16 = x: int | 0 <= x < 0x1_0000

  /** The two encodings a descriptor may name: "utf16" and "u16". */
  datatype Encoding = Utf16 | Uint16

  /** What `set` takes and `get` returns: a string (as its UTF-16 code
      units) or a number. */
  datatype Value = Text(units: seq<U16>) | Number(n: int)

  /** The conversion a Uint16Array applies to an integer it stores. */
  function ToUint16(x: int): (r: U16)
    ensures (x - r) % 0x1_0000 == 0
    ensures 0 <= x < 0x1_0000 ==> r == x
  {
    x % 0x1_0000
  }

  /** `n` slots holding 0, as a fresh view does. */
  function Zeros(n: nat): (r: seq<U16>)
    ensures |r| == n && forall i :: 0 <= i < n ==> r[i] == 0
  {
    seq(n, _ => 0)
  }

  /** The slots after the utf16 setter's loop has run over the code units of
      `s`, one write per unit in order; a write at an index at or past the end
      of the view changes nothing. */
  function WriteText(slots: seq<U16>, s: seq<U16>): (r: seq<U16>)
    ensures |r| == |slots|
    ensures forall i :: 0 <= i < |r| && i < |s| ==> r[i] == s[i]
    ensures forall i :: |s| <= i < |r| ==> r[i] == slots[i]
    decreases |s|
  {
    if s == [] then slots
    else
      var i := |s| - 1;
      var written := WriteText(slots, s[..i]);
      if i < |written| then written[i := s[i]] else written
  }

  /** What `set` does to a field's slots, chosen by the field's encoding. A
      number given to a utf16 field has no `length`, so the loop writes
      nothing. */
  function WriteField(encoding: Encoding, slots: seq<U16>, v: Value): (r: seq<U16>)
    requires |slots| >= 1
    requires encoding == Uint16 ==> v.Number?
    ensures |r| == |slots|
    ensures encoding == Uint16 ==> r[0] == ToUint16(v.n) && r[1..] == slots[1..]
    ensures encoding == Utf16 && v.Number? ==> r == slots
  {
    match encoding
    case Utf16 => if v.Text? then WriteText(slots, v.units) else slots
    case Uint16 => slots[0 := ToUint16(v.n)]
  }

  /** What `get` returns from a field's slots, chosen by the field's encoding:
      the text of every slot, or slot 0. */
  function ReadField(encoding: Encoding, slots: seq<U16>): (r: Value)
    requires |slots| >= 1
    ensures r.Text? <==> encoding == Utf16
    ensures r.Text? ==> |r.units| == |slots|
    ensures r.Number? ==> 0 <= r.n < 0x1_0000
  {
    match encoding
    case Utf16 => Text(slots)
    case Uint16 => Number(slots[0])
  }

  /** `Utf16Setter.set`: writes code unit i of `s` into slot i, for every i
      below |s|; a write past the end of the view is dropped. */
  method SetUtf16(view: array<U16>, s: seq<U16>)
    modifies view
    ensures view[..] == WriteText(old(view[..]), s)
  {
    for i := 0 to |s|
      invariant view[..] == WriteText(old(view[..]), s[..i])
    {
      if i < view.Length {
        view[i] := s[i];
      }
      assert s[..i + 1][..i] == s[..i];
    }
    assert s[..|s|] == s;
  }

  /** `Uint16Setter.set`: stores the number, wrapped to 16 bits, in slot 0. */
  method SetUint16(view: array<U16>, x: int)
    requires view.Length >= 1
    modifies view
    ensures view[..] == old(view[..])[0 := ToUint16(x)]
  {
    view[0] := ToUint16(x);
  }

  /** Reading a utf16 field gives back the first |slots| units written, and
      the slots' earlier contents past the end of the string. */
  lemma TextReadAfterWrite(slots: seq<U16>, s: seq<U16>)
    requires |slots| >= 1
    ensures ReadField(Utf16, WriteField(Utf16, slots, Text(s))) ==
      Text(if |s| >= |slots| then s[..|slots|] else s + slots[|s|..])
  {
  }

  /** On a fresh field of capacity `cap`, `get` after `set(s)` is `s` padded
      with NULs, or `s` cut to `cap` units. */
  lemma TextOnFreshField(cap: nat, s: seq<U16>)
    requires cap >= 1
    ensures ReadField(Utf16, WriteField(Utf16, Zeros(cap), Text(s))) ==
      Text(if |s| >= cap then s[..cap] else s + Zeros(cap - |s|))
  {
  }

  /** The round trip: a string exactly as long as the field comes back
      unchanged, whatever the field held before. */
  lemma TextRoundTrip(slots: seq<U16>, s: seq<U16>)
    requires |slots| >= 1 && |s| == |slots|
    ensures ReadField(Utf16, WriteField(Utf16, slots, Text(s))) == Text(s)
  {
  }

  /** The u16 round trip: `get` after `set(x)` is `x` wrapped to 16 bits, and
      is `x` itself exactly when `x` fits. */
  lemma NumberRoundTrip(slots: seq<U16>, x: int)
    requires |slots| >= 1
    ensures ReadField(Uint16, WriteField(Uint16, slots, Number(x))) == Number(ToUint16(x))
    ensures ReadField(Uint16, WriteField(Uint16, slots, Number(x))) == Number(x) <==> 0 <= x < 0x1_0000
  {
  }
}
