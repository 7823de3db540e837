/** The integer-helper preambles of the C target
    (`_preamble_generator` in loopy/target/c/__init__.py): which helper
    definitions a kernel gets, under which sort tags, and in which order.
    The C text of each definition is kept symbolic. */
module CPreambles {

  /** The four integer helpers, in the order the generator's table lists them. */
  datatype CHelper = FloorDivHelper | FloorDivPosBHelper | ModHelper | ModPosBHelper

  const HelperOrder: seq<CHelper> := [FloorDivHelper, FloorDivPosBHelper, ModHelper, ModPosBHelper]

  /** The C integer type names each helper is instantiated for. */
  const IntegerTypeNames: seq<string> := ["int8", "int16", "int32", "int64"]

  function HelperName(h: CHelper): string {
    match h
    case FloorDivHelper => "loopy_floor_div"
    case FloorDivPosBHelper => "loopy_floor_div_pos_b"
    case ModHelper => "loopy_mod"
    case ModPosBHelper => "loopy_mod_pos_b"
  }

  /** The code of a preamble, symbolically. */
  datatype PreambleCode =
    | DefIntegerTypes
    | UndefIntegerTypes
    | HelperDefinition(helper: CHelper)
    | IntPowDefinition(cName: string, signedExponent: bool)

  const DefIntegerTypesTag := "03_def_integer_types"
  const UndefIntegerTypesTag := "05_undef_integer_types"

  function HelperTag(h: CHelper): string {
    "04_" + HelperName(h)
  }

  /** A function the kernel calls, as the generator sees it: its name, the
      name of its C instance, and whether its exponent type (for `int_pow`)
      is signed. */
  datatype SeenFunction = SeenFunction(name: string, cName: string, signedExponent: bool)

  /** A helper is needed when one of its typed instances is called. */
  predicate HelperUsed(h: CHelper, cFuncs: set<string>) {
    exists t :: 0 <= t < |IntegerTypeNames| && HelperName(h) + "_" + IntegerTypeNames[t] in cFuncs
  }

  /** The three preambles a used helper contributes. */
  function HelperPreambles(h: CHelper): seq<(string, PreambleCode)> {
    [(DefIntegerTypesTag, DefIntegerTypes), (HelperTag(h), HelperDefinition(h)),
     (UndefIntegerTypesTag, UndefIntegerTypes)]
  }

  /** The reference: the preambles of the used helpers in table order. */
  function HelperSection(hs: seq<CHelper>, cFuncs: set<string>): seq<(string, PreambleCode)> {
    if |hs| == 0 then []
    else (if HelperUsed(hs[0], cFuncs) then HelperPreambles(hs[0]) else []) + HelperSection(hs[1..], cFuncs)
  }

  /** The `int_pow` preambles, one per call seen, in the order seen. */
  function IntPowSection(seen: seq<SeenFunction>): seq<(string, PreambleCode)> {
    if |seen| == 0 then []
    else (if seen[0].name == "int_pow" then [("07_" + seen[0].cName, IntPowDefinition(seen[0].cName, seen[0].signedExponent))] else [])
         + IntPowSection(seen[1..])
  }

  /** The part one helper contributes. */
  function HelperChunk(h: CHelper, cFuncs: set<string>): seq<(string, PreambleCode)> {
    if HelperUsed(h, cFuncs) then HelperPreambles(h) else []
  }

  /** The section from helper `i` on is its chunk followed by the rest. */
  lemma HelperSectionUnfold(hs: seq<CHelper>, i: int, cFuncs: set<string>)
    requires 0 <= i < |hs|
    ensures HelperSection(hs[i..], cFuncs) == HelperChunk(hs[i], cFuncs) + HelperSection(hs[i + 1..], cFuncs)
  {
    assert hs[i..][1..] == hs[i + 1..];
  }

  /** A run of triples: the integer type macro's definition, one helper
      definition, and the macro's removal. */
  predicate Framed(s: seq<(string, PreambleCode)>) {
    && |s| % 3 == 0
    && forall t :: 0 <= t < |s| && 3 * t + 2 < |s| ==>
         s[3 * t] == (DefIntegerTypesTag, DefIntegerTypes)
         && s[3 * t + 1].1.HelperDefinition?
         && s[3 * t + 2] == (UndefIntegerTypesTag, UndefIntegerTypes)
  }

  lemma FramedPrepend(h: CHelper, rest: seq<(string, PreambleCode)>)
    requires Framed(rest)
    ensures Framed(HelperPreambles(h) + rest)
  {
    var head := HelperPreambles(h);
    var s := head + rest;
    assert |s| == |rest| + 3 && |s| % 3 == 0;
    assert s[0] == head[0] == (DefIntegerTypesTag, DefIntegerTypes);
    assert s[1].1 == head[1].1 == HelperDefinition(h);
    assert s[2] == head[2] == (UndefIntegerTypesTag, UndefIntegerTypes);
    forall t | 0 <= t < |s| && 3 * t + 2 < |s|
      ensures s[3 * t] == (DefIntegerTypesTag, DefIntegerTypes)
              && s[3 * t + 1].1.HelperDefinition?
              && s[3 * t + 2] == (UndefIntegerTypesTag, UndefIntegerTypes)
    {
      if t > 0 {
        var u := t - 1;
        assert 0 <= u < |rest| && 3 * u + 2 < |rest|;
        assert s[3 * t] == rest[3 * u] && s[3 * t + 1] == rest[3 * u + 1] && s[3 * t + 2] == rest[3 * u + 2];
      }
    }
  }

  /** The helper section is a run of triples. */
  lemma {:induction false} HelperSectionFraming(hs: seq<CHelper>, cFuncs: set<string>)
    ensures Framed(HelperSection(hs, cFuncs))
  {
    if |hs| > 0 {
      HelperSectionFraming(hs[1..], cFuncs);
      HelperSectionUnfold(hs, 0, cFuncs);
      if HelperUsed(hs[0], cFuncs) {
        FramedPrepend(hs[0], HelperSection(hs[1..], cFuncs));
      }
    }
  }

  /** A helper's definition is emitted exactly when the helper is listed and
      one of its typed instances is called, and under the helper's own tag. */
  lemma {:induction false} HelperSectionSelects(hs: seq<CHelper>, cFuncs: set<string>)
    ensures forall h :: h in hs && HelperUsed(h, cFuncs) ==>
              (HelperTag(h), HelperDefinition(h)) in HelperSection(hs, cFuncs)
    ensures forall h, tag :: (tag, HelperDefinition(h)) in HelperSection(hs, cFuncs) ==>
              h in hs && HelperUsed(h, cFuncs) && tag == HelperTag(h)
  {
    if |hs| > 0 {
      HelperSectionSelects(hs[1..], cFuncs);
      HelperSectionUnfold(hs, 0, cFuncs);
      var head := HelperChunk(hs[0], cFuncs);
      var rest := HelperSection(hs[1..], cFuncs);
      forall h, tag | (tag, HelperDefinition(h)) in head + rest
        ensures h in hs && HelperUsed(h, cFuncs) && tag == HelperTag(h)
      {
        if (tag, HelperDefinition(h)) in head {
          assert h == hs[0];
        } else {
          assert h in hs[1..];
        }
      }
      forall h | h in hs && HelperUsed(h, cFuncs)
        ensures (HelperTag(h), HelperDefinition(h)) in head + rest
      {
        if h == hs[0] {
          assert head[1] == (HelperTag(h), HelperDefinition(h));
        } else {
          assert h in hs[1..];
        }
      }
    }
  }

  /** Every `int_pow` call seen, and nothing else, contributes a definition
      tagged with its C name. */
  lemma {:induction false} IntPowSectionSelects(seen: seq<SeenFunction>)
    ensures forall k :: 0 <= k < |seen| && seen[k].name == "int_pow" ==>
              ("07_" + seen[k].cName, IntPowDefinition(seen[k].cName, seen[k].signedExponent)) in IntPowSection(seen)
    ensures forall p :: p in IntPowSection(seen) ==>
              exists k :: 0 <= k < |seen| && seen[k].name == "int_pow"
                          && p == ("07_" + seen[k].cName, IntPowDefinition(seen[k].cName, seen[k].signedExponent))
  {
    if |seen| > 0 {
      IntPowSectionSelects(seen[1..]);
      var head := if seen[0].name == "int_pow"
                  then [("07_" + seen[0].cName, IntPowDefinition(seen[0].cName, seen[0].signedExponent))] else [];
      var rest := IntPowSection(seen[1..]);
      assert IntPowSection(seen) == head + rest;
      forall k | 1 <= k < |seen| && seen[k].name == "int_pow"
        ensures ("07_" + seen[k].cName, IntPowDefinition(seen[k].cName, seen[k].signedExponent)) in head + rest
      {
        assert seen[k] == seen[1..][k - 1];
      }
      forall p | p in head + rest
        ensures exists k :: 0 <= k < |seen| && seen[k].name == "int_pow"
                            && p == ("07_" + seen[k].cName, IntPowDefinition(seen[k].cName, seen[k].signedExponent))
      {
        if p !in head {
          var k :| 0 <= k < |seen[1..]| && seen[1..][k].name == "int_pow"
                   && p == ("07_" + seen[1..][k].cName, IntPowDefinition(seen[1..][k].cName, seen[1..][k].signedExponent));
          assert seen[1..][k] == seen[k + 1];
        }
      }
    }
  }

  /** The generator's test for one helper: is any of its typed instances called? */
  method IsHelperUsed(h: CHelper, cFuncs: set<string>) returns (used: bool)
    ensures used <==> HelperUsed(h, cFuncs)
  {
    used := false;
    for t := 0 to |IntegerTypeNames|
      invariant used <==> exists t' :: 0 <= t' < t && HelperName(h) + "_" + IntegerTypeNames[t'] in cFuncs
    {
      if HelperName(h) + "_" + IntegerTypeNames[t] in cFuncs {
        used := true;
      }
    }
  }

  /** The generator's first loop: the helpers' preambles, in table order. */
  method EmitHelperPreambles(hs: seq<CHelper>, cFuncs: set<string>) returns (r: seq<(string, PreambleCode)>)
    ensures r == HelperSection(hs, cFuncs)
  {
    r := [];
    for i := 0 to |hs|
      invariant r + HelperSection(hs[i..], cFuncs) == HelperSection(hs, cFuncs)
    {
      var used := IsHelperUsed(hs[i], cFuncs);
      HelperSectionUnfold(hs, i, cFuncs);
      ghost var rest := HelperSection(hs[i + 1..], cFuncs);
      var chunk := if used then HelperPreambles(hs[i]) else [];
      assert r + (chunk + rest) == (r + chunk) + rest;
      r := r + chunk;
    }
    assert hs[|hs|..] == [];
  }

  /** The generator's second loop: an `int_pow` definition per call seen. */
  method EmitIntPowPreambles(seen: seq<SeenFunction>) returns (r: seq<(string, PreambleCode)>)
    ensures r == IntPowSection(seen)
  {
    r := [];
    for i := 0 to |seen|
      invariant r + IntPowSection(seen[i..]) == IntPowSection(seen)
    {
      assert seen[i..][1..] == seen[i + 1..];
      var rest := IntPowSection(seen[i + 1..]);
      if seen[i].name == "int_pow" {
        var one := [("07_" + seen[i].cName, IntPowDefinition(seen[i].cName, seen[i].signedExponent))];
        assert r + (one + rest) == (r + one) + rest;
        r := r + one;
      }
    }
    assert seen[|seen|..] == [];
  }

  /** The C names of the functions seen. */
  function CFuncNames(seen: seq<SeenFunction>): (r: set<string>)
    ensures forall n :: n in r <==> exists k :: 0 <= k < |seen| && seen[k].cName == n
  {
    set k | 0 <= k < |seen| :: seen[k].cName
  }

  /** `_preamble_generator`: for each helper in table order, the three
      preambles when one of its typed instances is called; then an `int_pow`
      definition for every `int_pow` call seen. */
  method PreambleGenerator(seen: seq<SeenFunction>) returns (r: seq<(string, PreambleCode)>)
    ensures r == HelperSection(HelperOrder, CFuncNames(seen)) + IntPowSection(seen)
  {
    var helpers := EmitHelperPreambles(HelperOrder, CFuncNames(seen));
    var pows := EmitIntPowPreambles(seen);
    r := helpers + pows;
  }
}
