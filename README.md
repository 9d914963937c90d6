# A doubly linked list and a fixed-layout binary record, in Dafny

This project models the two independent components of `index.ts`:

- **`LinkedList` / `ListItem`**: a doubly linked list of numbers. `add`
  appends a node. It makes the new node `last` at once, then on a non-empty
  list walks from `first` along `next` until it meets the node whose `next`
  is null, and links the new node after it. Iteration yields the values from
  `first` along `next` until null.
- **`Structure`**: a record built from descriptors `[key, encoding, length?]`.
  Each field gets its own buffer of `(length || 2) * (utf16 ? 2 : 1)` bytes,
  viewed as 16-bit slots, and its encoding (`"utf16"` or `"u16"`) is recorded
  in `meta`. `set` and `get` dispatch on `meta[key]`. A utf16 write copies the
  code units of the string into the slots, and writes past the end of the view
  are dropped. A utf16 read returns every slot as a character. A u16 write
  stores the number, wrapped to 16 bits, into slot 0, and a u16 read returns
  slot 0.

Modules:

- `Wrappers` (`Wrappers.dfy`): `Option`, `Result`, `Outcome`.
- `LinkedLists` (`LinkedList.dfy`): the classes `ListItem` and `LinkedList`,
  which hold heap nodes with `prev`/`next` fields. A ghost chain `Nodes`, its
  values `Contents` and the footprint `Repr` are tied to the real fields by
  `Valid()`.
- `FieldCodec` (`FieldCodec.dfy`): the setters and getters. The pure
  functions `WriteText`, `WriteField` and `ReadField` give their meaning, and
  the in-place setters `SetUtf16` and `SetUint16` work on an `array<U16>`.
  A `match` on the `Encoding` datatype replaces the `SetterFabric` /
  `GetterFabric` factories.
- `Structures` (`Structure.dfy`): descriptor sizing (`SlotCount`), the
  layout the constructor leaves (`Layout`), and the class `Structure`. The
  class has `meta: map<string, Encoding>` and
  `views: map<string, array<U16>>` in place of the dynamic properties
  `this[key]`.

Behaviours of `index.ts` the model keeps:

- `add` walks the whole chain from `first` (O(n)) to find the tail, although
  `last` is tracked.
- A repeated key silently replaces the earlier field.
- A utf16 field with no length, or length 0, gets 2 slots.
- A u16 field with an explicit non-zero length L gets L/2 slots; length 0
  falls back to 2 bytes, one slot, as with no length. An odd or negative
  byte length makes the typed-array runtime throw a RangeError.
- A number passed to a utf16 field writes nothing, because the number has no
  `length`.

## Model

| member | source | states |
|---|---|---|
| `LinkedLists.ListItem.constructor` | index.ts:15-24 | a new node holds the value, and its `prev` and `next` are null |
| `LinkedLists.LinkedList.constructor` | index.ts:26-28 | a new list is empty, with `first` and `last` null, and satisfies the doubly-linked invariant |
| `LinkedLists.LinkedList.Add` | index.ts:35-61 | keeps the doubly-linked invariant; values become old values ++ [v]; the new node is fresh and becomes `last`, with null `next`; on an empty list it is also `first`, with null `prev`; otherwise `first` is unchanged, the old last's `next` is the new node and the new node's `prev` is the old last; the tail walk runs exactly n+1 iterations on a list of n ≥ 1 nodes |
| `LinkedLists.LinkedList.Elements` | index.ts:63-77 | iteration yields exactly the list's values from `first` to `last` in insertion order, and changes nothing |
| `LinkedLists.LinkedList.FollowForward` | index.ts:49-58 | i hops along `next` from the j-th node reach the (j+i)-th node |
| `LinkedLists.LinkedList.FollowBackward` | index.ts:50-54 | i hops along `prev` from the j-th node reach the (j−i)-th node |
| `LinkedLists.LinkedList.WalkEnds` | index.ts:39-59 | n−1 hops along `next` from `first` reach `last`, and the n-th reaches null; n−1 hops along `prev` from `last` reach `first`, and the n-th reaches null |
| `LinkedLists.LinkedList.LinksAgree` | index.ts:50-54 | for each node whose `next` is not null, `next.prev` is that node |
| `LinkedLists.AddOneToFour` | index.test.ts:4-39 | after add(1..4): iteration gives [1,2,3,4]; first.value 1, last.value 4, first.next.value 2, first.next.prev.value 1, last.prev.prev.prev.value 1 |
| `FieldCodec.ToUint16` | index.ts:116-120 | the value stored by a u16 write is congruent to the number modulo 65536 and equals it when it lies in 0..65535 |
| `FieldCodec.WriteText` | index.ts:108-114 | the per-unit writes of the utf16 loop keep the view's length; slot i gets s[i] for i < min(len s, capacity); slots at or past len s keep their contents |
| `FieldCodec.WriteField` | index.ts:122-131 | set dispatched on the encoding keeps the length; u16 puts the wrapped number in slot 0 and leaves the other slots; a number on a utf16 field changes nothing |
| `FieldCodec.ReadField` | index.ts:157-166 | get dispatched on the encoding: utf16 gives text exactly as long as the view, u16 gives a number in 0..65535 |
| `FieldCodec.SetUtf16` | index.ts:108-114 | the in-place utf16 setter leaves the view equal to `WriteText` of its old contents |
| `FieldCodec.SetUint16` | index.ts:116-120 | the in-place u16 setter changes slot 0 to the wrapped number and nothing else |
| `FieldCodec.TextReadAfterWrite` | index.ts:108-149 | get after a utf16 set returns the string cut to capacity, or the string followed by the slots' earlier contents |
| `FieldCodec.TextOnFreshField` | index.ts:145-149 | on a fresh field of capacity C, get after set(s) is s padded with NULs to C, or s cut to C |
| `FieldCodec.TextRoundTrip` | index.test.ts:43-54 | get after set(s) returns s when len s equals the capacity, whatever the field held |
| `FieldCodec.NumberRoundTrip` | index.ts:116-155 | get after a u16 set(x) returns x mod 65536, and returns x itself exactly when 0 ≤ x < 65536 |
| `Structures.SlotCount` | index.ts:175-181 | with `ByteLength` (the byte count `(length || 2) * (utf16 ? 2 : 1)`, 2 when the length is missing or 0, doubled for utf16): utf16 with length L > 0 gets L slots; utf16 with no length or 0 gets 2; u16 with no length gets 1; otherwise 2·slots is the byte length; a negative byte length or an odd u16 length fails with RangeError, and success means at least one slot |
| `Structures.Layout` | index.ts:171-185 | every field the constructor leaves has at least one slot |
| `Structures.LayoutKeys` | index.ts:171-185 | the constructor leaves exactly one field per key named by a descriptor |
| `Structures.LayoutLastWins` | index.ts:181-183 | a key's field comes from the last descriptor naming it, so a repeated key replaces the earlier field |
| `Structures.Allocate` | index.ts:172-184 | the descriptor loop gives each key the encoding and slot count of `Layout`, with a fresh, zero-filled buffer distinct from every other key's |
| `Structures.Structure.constructor` | index.ts:171-185 | meta holds exactly the descriptors' keys, each with its `Layout` encoding and slot count; every view is fresh, zero-filled and not shared |
| `Structures.Structure.Set` | index.ts:187-194 | an unknown key fails and changes nothing; otherwise the field's slots become `WriteField` of their old contents, and `meta`, the key-to-view map and every other field's slots are unchanged |
| `Structures.Structure.Get` | index.ts:196-203 | fails with UnknownField exactly on a key absent from `meta`; a utf16 field gives the text of every slot of its view, trailing NULs included; a u16 field gives slot 0; changes nothing |
| `Structures.Structure.SetThenGet` | index.ts:187-203 | get after set on any key: an unknown key fails; a u16 field gives the number mod 65536; a utf16 field gives the string cut to its capacity, or the string followed by the slots' earlier contents; a number on a utf16 field leaves the text unchanged; `meta` and the key-to-view map stay as they were |
| `Structures.JackBlackLayout` | index.test.ts:43-47 | the test's descriptors give "name" 4 utf16 slots, "lastName" 5 and "age" one u16 slot |
| `Structures.JackBlack` | index.test.ts:42-56 | after set("name","Jack"), set("lastName","Black"), set("age",53) the three gets return "Jack", "Black" and 53 |

## Left out

- Numbers are integers. JavaScript's `ToUint16` on NaN, fractions and
  infinities, and on strings passed to a u16 field, is floating-point
  coercion. `Structure.Set` therefore requires a number for a u16 field, and
  a descriptor length is an integer.
- Strings are sequences of UTF-16 code units. Surrogate pairs and other
  Unicode semantics of `String.fromCharCode` / `charCodeAt` are not modelled.
- The dynamic properties `this[key] = view` become the explicit map `views`.
  The keys "meta", "set", "get" and "__proto__" would overwrite the record's
  own members or prototype, so `WellFormed` excludes them.
- `ArrayBuffer` and `Uint16Array` become one `array<U16>` per field. The
  RangeError for a negative or odd byte length is `SlotCount`'s failure, and
  the constructor requires every descriptor to succeed. A constructor that
  throws part-way through its loop is not modelled.
- The `Setter`/`Getter` classes and factories are replaced by a `match` on
  the encoding.
- `[Symbol.iterator]`: the iterator object `{ value, done }` and its lazy
  cursor are modelled as one method, `Elements`, that runs the cursor to the
  end and returns the values.
- `LinkedLists.LinkedList.Add`: the count of walk iterations is a ghost
  out-parameter of the model. `add` in `index.ts` returns nothing.
- The Jest harness of `index.test.ts` is not part of this model. Its two
  scenarios are restated as `AddOneToFour` and `JackBlack`.
