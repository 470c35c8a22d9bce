/** The driver's view of an Erlang port term: a flat array of
    `ErlDrvTermData` words that `erl_drv_output_term` reads as a program for
    building one Erlang term. Each word is an abstract token here. */
module PortTerms {

  /** Kind of a WebAssembly import or export (`wasm_import_export_kind_t`). */
  datatype ExternKind = Func | Table | Memory | Global

  /** Kind of a WebAssembly value (`wasm_valkind_t`). */
  datatype ValKind = I32 | I64 | F32 | F64

  /** A WebAssembly value. The payload stands for the bits of the `of`
      union, read as an opaque integer whichever member is read. */
  datatype WasmVal = WasmVal(kind: ValKind, payload: int)

  /** One word of a port term. */
  datatype Term =
    | AtomOp                     // ERL_DRV_ATOM
    | StringOp                   // ERL_DRV_STRING
    | NilOp                      // ERL_DRV_NIL
    | ListOp                     // ERL_DRV_LIST
    | TupleOp                    // ERL_DRV_TUPLE
    | NamedAtom(name: string)    // a driver atom such as atom_import
    | KindAtom(kind: ExternKind) // driver_mk_atom of a kind's name
    | Chars(text: string)        // a `char *` pointer word
    | Word(n: int)               // a length, count or arity word

  /** `ERL_DRV_STRING, ptr, strlen(ptr)`: the three words of a C string. */
  function StringTerms(s: string): seq<Term>
  {
    [StringOp, Chars(s), Word(|s|)]
  }

  /** The words written for a list of values, one encoding after another.
      The encoder (`wasm_val_to_erl_term`) is a parameter: it is not part of
      this model. */
  function EncodeAll(vs: seq<WasmVal>, encode: WasmVal -> seq<Term>): seq<Term>
  {
    if vs == [] then [] else EncodeAll(vs[..|vs| - 1], encode) + encode(vs[|vs| - 1])
  }

  /** The encoder's contract as the buffer sizes expect it: at most two
      words per value. */
  predicate EncodesInTwo(vs: seq<WasmVal>, encode: WasmVal -> seq<Term>)
  {
    forall i :: 0 <= i < |vs| ==> |encode(vs[i])| <= 2
  }

  /** Every value encodes to exactly two words (the tag and the payload). */
  predicate EncodesInExactlyTwo(vs: seq<WasmVal>, encode: WasmVal -> seq<Term>)
  {
    forall i :: 0 <= i < |vs| ==> |encode(vs[i])| == 2
  }

  /** Encoding at most two words per value writes at most two words per
      value in all. */
  lemma {:induction false} EncodeAllBound(vs: seq<WasmVal>, encode: WasmVal -> seq<Term>)
    requires EncodesInTwo(vs, encode)
    ensures |EncodeAll(vs, encode)| <= 2 * |vs|
    ensures EncodesInExactlyTwo(vs, encode) ==> |EncodeAll(vs, encode)| == 2 * |vs|
  {
    if vs != [] {
      var init := vs[..|vs| - 1];
      assert EncodesInTwo(init, encode) by {
        forall i | 0 <= i < |init| ensures |encode(init[i])| <= 2 {
          assert init[i] == vs[i];
        }
      }
      if EncodesInExactlyTwo(vs, encode) {
        assert EncodesInExactlyTwo(init, encode) by {
          forall i | 0 <= i < |init| ensures |encode(init[i])| == 2 {
            assert init[i] == vs[i];
          }
        }
      }
      EncodeAllBound(init, encode);
    }
  }

  /** Regrouping a concatenation: the step that lets a loop's "words so
      far" invariant absorb the words just emitted. */
  lemma ConcatAssoc<T>(a: seq<T>, b: seq<T>, c: seq<T>)
    ensures (a + b) + c == a + (b + c)
  {
  }

  /** `msg[msg_i++] = t` for each word `t` of `ts`, in order. */
  method Emit(msg: array<Term>, at: nat, ts: seq<Term>) returns (next: nat)
    requires at + |ts| <= msg.Length
    modifies msg
    ensures next == at + |ts|
    ensures msg[..next] == old(msg[..at]) + ts
    ensures msg[next..] == old(msg[next..])
  {
    next := at;
    var k := 0;
    while k < |ts|
      invariant 0 <= k <= |ts| && next == at + k
      invariant msg[..next] == old(msg[..at]) + ts[..k]
      invariant msg[at + |ts|..] == old(msg[at + |ts|..])
    {
      msg[next] := ts[k];
      next := next + 1;
      k := k + 1;
    }
    assert ts[..k] == ts;
  }
}
