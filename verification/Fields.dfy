/** Lists of bit fields. */
module Fields {
  // What a compressed block is written as: a list of calls that each write the low bits of a number.

  import opened Arith
  import opened BitStrings
  import opened BitStream

  /** One field of a compressed block: the `n` low bits of `v`. */
  datatype Field = Field(n: int, v: int)

  ghost predicate IsField(f: Field) {
    1 <= f.n <= 25 && 0 <= f.v < Pow2(f.n)
  }

  ghost predicate AreFields(fs: seq<Field>) {
    forall i | 0 <= i < |fs| :: IsField(fs[i])
  }

  ghost function FieldsBits(fs: seq<Field>): (bits: seq<int>)
    requires AreFields(fs)
    ensures Bits(bits)
  {
    if fs == [] then [] else FieldsBits(fs[..|fs| - 1]) + BitsOf(fs[|fs| - 1].n, fs[|fs| - 1].v)
  }

  lemma FieldsMore(fs: seq<Field>, i: nat)
    requires AreFields(fs) && i < |fs|
    ensures AreFields(fs[..i]) && AreFields(fs[..i + 1])
    ensures FieldsBits(fs[..i + 1]) == FieldsBits(fs[..i]) + BitsOf(fs[i].n, fs[i].v)
  {
    assert fs[..i + 1][..i] == fs[..i];
  }

  lemma FieldsAppend(fs: seq<Field>, f: Field)
    requires AreFields(fs) && IsField(f)
    ensures AreFields(fs + [f]) && FieldsBits(fs + [f]) == FieldsBits(fs) + BitsOf(f.n, f.v)
  {
    hide BitsOf, Pow2;
    assert (fs + [f])[..|fs|] == fs;
  }

  lemma {:induction false} FieldsConcat(fs: seq<Field>, gs: seq<Field>)
    requires AreFields(fs) && AreFields(gs)
    ensures AreFields(fs + gs) && FieldsBits(fs + gs) == FieldsBits(fs) + FieldsBits(gs)
    decreases |gs|
  {
    hide BitsOf, Pow2, FieldsBits;
    if gs == [] {
      FieldsNone();
      assert fs + gs == fs && FieldsBits(fs) + [] == FieldsBits(fs);
    } else {
      var rest, g := gs[..|gs| - 1], gs[|gs| - 1];
      FieldsConcat(fs, rest);
      FieldsAppend(fs + rest, g);
      FieldsAppend(rest, g);
      assert fs + rest + [g] == fs + gs && rest + [g] == gs;
      assert FieldsBits(fs) + FieldsBits(rest) + BitsOf(g.n, g.v) ==
          FieldsBits(fs) + (FieldsBits(rest) + BitsOf(g.n, g.v));
    }
  }

  lemma FieldsNone()
    ensures AreFields([]) && FieldsBits([]) == []
  {
  }

  /** Writes the fields of a block. */
  method PutFields(bits: BitWriter, fs: seq<Field>)
    requires bits.Valid() && AreFields(fs)
    modifies bits
    ensures bits.Valid() && bits.Written() == old(bits.Written()) + FieldsBits(fs)
  {
    hide Clean, Waiting, BytesBits, BitsOf;
    assert fs[..0] == [];
    assert bits.Written() + [] == bits.Written();
    for i := 0 to |fs|
      invariant bits.Valid() && AreFields(fs[..i]) && bits.Written() == old(bits.Written()) + FieldsBits(fs[..i])
    {
      FieldsMore(fs, i);
      bits.W(fs[i].n, fs[i].v);
      assert old(bits.Written()) + FieldsBits(fs[..i]) + BitsOf(fs[i].n, fs[i].v) ==
          old(bits.Written()) + (FieldsBits(fs[..i]) + BitsOf(fs[i].n, fs[i].v));
    }
    assert fs[..|fs|] == fs;
  }
}
