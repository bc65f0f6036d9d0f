/** `GetConstantTypeName`: a name table with one slot per constant type,
    filled on the first call and read by every call. */
module ConstantTypeNames {
  import opened Common
  import opened Ast

  /** The enumerator name reflection gives a constant type. */
  function EnumeratorName(t: ConstantType): string
  {
    match t
    case I8 => "I8"
    case I16 => "I16"
    case I32 => "I32"
    case I64 => "I64"
    case FLOAT => "FLOAT"
    case DOUBLE => "DOUBLE"
    case STRING => "STRING"
    case CHAR => "CHAR"
  }

  /** The types whose names the first call stores, in order. */
  const PUSHED: seq<ConstantType> := [I8, I16, I32, I64, FLOAT, DOUBLE, STRING]

  /** The table before the first call: `_COUNT` empty strings. */
  function EmptyTable(): (t: seq<string>)
    ensures |t| == COUNT && forall i :: 0 <= i < COUNT ==> t[i] == ""
  {
    seq(COUNT, i => "")
  }

  /** Storing the name of each type in `ts` at its enumerator's index. */
  function Store(table: seq<string>, ts: seq<ConstantType>): (r: seq<string>)
    requires |table| == COUNT
    ensures |r| == COUNT
  {
    if ts == [] then table
    else
      var t := ts[|ts| - 1];
      Store(table, ts[..|ts| - 1])[Ordinal(t) := EnumeratorName(t)]
  }

  /** The table after the first call. */
  function FilledTable(): (t: seq<string>)
    ensures |t| == COUNT
  {
    Store(EmptyTable(), PUSHED)
  }

  /** What a call with index `index` returns: `vector::at` throws for an
      index past the end. */
  function NameAt(index: nat): Option<string>
  {
    if index < COUNT then Some(FilledTable()[index]) else None
  }

  /** The filled table slot by slot. */
  lemma FilledSlots()
    ensures FilledTable() == EmptyTable()[0 := "I8"][1 := "I16"][2 := "I32"][3 := "I64"]
                                         [4 := "FLOAT"][5 := "DOUBLE"][6 := "STRING"]
  {
    var e := EmptyTable();
    assert PUSHED[..0] == [];
    assert Store(e, PUSHED[..1]) == e[0 := "I8"] by { assert PUSHED[..1][..0] == PUSHED[..0]; }
    assert Store(e, PUSHED[..2]) == e[0 := "I8"][1 := "I16"] by { assert PUSHED[..2][..1] == PUSHED[..1]; }
    assert Store(e, PUSHED[..3]) == e[0 := "I8"][1 := "I16"][2 := "I32"] by {
      assert PUSHED[..3][..2] == PUSHED[..2];
    }
    assert Store(e, PUSHED[..4]) == e[0 := "I8"][1 := "I16"][2 := "I32"][3 := "I64"] by {
      assert PUSHED[..4][..3] == PUSHED[..3];
    }
    assert Store(e, PUSHED[..5]) == e[0 := "I8"][1 := "I16"][2 := "I32"][3 := "I64"][4 := "FLOAT"] by {
      assert PUSHED[..5][..4] == PUSHED[..4];
    }
    assert Store(e, PUSHED[..6]) == e[0 := "I8"][1 := "I16"][2 := "I32"][3 := "I64"][4 := "FLOAT"][5 := "DOUBLE"] by {
      assert PUSHED[..6][..5] == PUSHED[..5];
    }
    assert PUSHED[..6] == PUSHED[..|PUSHED| - 1];
  }

  /** Every stored type reads back its own name, and the one type never
      stored, CHAR, reads back the empty string. */
  lemma NamesOfTypes(t: ConstantType)
    ensures NameAt(Ordinal(t)) == Some(if t == CHAR then "" else EnumeratorName(t))
  {
    FilledSlots();
  }

  /** The lazily initialised table behind `GetConstantTypeName`. */
  class NameTable {
    var init: bool
    var table: seq<string>

    ghost predicate Valid()
      reads this
    {
      table == if init then FilledTable() else EmptyTable()
    }

    constructor()
      ensures Valid() && !init
    {
      init := false;
      table := EmptyTable();
    }

    /** The first call fills the table; every call returns the slot of
        `index`. */
    method GetConstantTypeName(index: nat) returns (name: Option<string>)
      requires Valid()
      modifies this
      ensures Valid() && init
      ensures old(init) ==> table == old(table)
      ensures name == NameAt(index)
    {
      if !init {
        init := true;
        table := table[Ordinal(I8) := EnumeratorName(I8)];
        table := table[Ordinal(I16) := EnumeratorName(I16)];
        table := table[Ordinal(I32) := EnumeratorName(I32)];
        table := table[Ordinal(I64) := EnumeratorName(I64)];
        table := table[Ordinal(FLOAT) := EnumeratorName(FLOAT)];
        table := table[Ordinal(DOUBLE) := EnumeratorName(DOUBLE)];
        table := table[Ordinal(STRING) := EnumeratorName(STRING)];
        FilledSlots();
      }
      if index < |table| {
        name := Some(table[index]);
      } else {
        name := None;
      }
    }
  }
}
