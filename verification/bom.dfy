/** `computeBOM`: bill-of-materials roll-up.

    Each input line is `Product, [qty:N | jumlah:N], Component:perUnit, ...`.
    A product's quantity comes from its own line, else from the override
    text `"Product:qty,..."`, else defaults to 1; each component's total is
    the sum over products of product quantity times per-unit quantity. */
module Bom {
  import opened Wrappers
  import Text
  import Numbers

  /** A `Component:perUnit` entry; `perUnit` is `None` where `parseFloat`
      gives `NaN`. */
  datatype Component = Component(name: string, perUnit: Option<real>)

  /** A parsed line: product name, resolved quantity, components in order. */
  datatype Product = Product(name: string, qty: real, comps: seq<Component>)

  /** `products` is the per-product breakdown; `totals` maps each component
      name to its required quantity. */
  datatype BomResult = BomResult(products: seq<Product>, totals: map<string, real>)

  /** A field after the product name: a quantity setting or a component. */
  datatype Segment = QtySegment(value: real) | ComponentSegment(comp: Component)

  /** `Number(v)` where `v` may be `undefined` (no `:` in the field). */
  function NumberOf(v: Option<string>): Option<real>
  {
    match v
    case Some(s) => Numbers.JsNumber(s)
    case None => None
  }

  /** The key names the product quantity, compared ignoring case. Only ASCII
      letters lower-case to the letters of `qty` and `jumlah`, so ASCII
      lower-casing decides this exactly as `toLowerCase` does. */
  predicate IsQtyKey(key: string)
  {
    Text.Lower(key) == "qty" || Text.Lower(key) == "jumlah"
  }

  /** One `key:value` field: `seg.split(':').map(x => x.trim())`, key first. */
  function ParseSegment(seg: string): Segment
  {
    var m := Text.TrimAll(Text.Split(seg, ':'));
    var val := if |m| > 1 then Some(m[1]) else None;
    if IsQtyKey(m[0]) then QtySegment(Numbers.OrZero(NumberOf(val)))
    else
      var text := if val == None || val == Some("") then "1" else val.value;
      ComponentSegment(Component(m[0], Numbers.ParseFloat(text)))
  }

  /** The in-row quantity: the value of the last quantity field, 0 if none. */
  function InRowQty(segs: seq<Segment>): real
  {
    if segs == [] then 0.0
    else
      match segs[|segs| - 1]
      case QtySegment(v) => v
      case ComponentSegment(_) => InRowQty(segs[..|segs| - 1])
  }

  /** The component fields of a line, in order. */
  function ComponentsOf(segs: seq<Segment>): seq<Component>
  {
    if segs == [] then []
    else
      ComponentsOf(segs[..|segs| - 1]) +
        match segs[|segs| - 1]
        case QtySegment(_) => []
        case ComponentSegment(c) => [c]
  }

  /** A later quantity field overrides every earlier one, whatever lies
      between them. */
  lemma {:induction false} InRowQtyIsLast(prefix: seq<Segment>, v: real, suffix: seq<Segment>)
    requires forall i :: 0 <= i < |suffix| ==> suffix[i].ComponentSegment?
    ensures InRowQty(prefix + [QtySegment(v)] + suffix) == v
  {
    var s := prefix + [QtySegment(v)] + suffix;
    if suffix != [] {
      assert s[..|s| - 1] == prefix + [QtySegment(v)] + suffix[..|suffix| - 1];
      InRowQtyIsLast(prefix, v, suffix[..|suffix| - 1]);
    }
  }

  /** `qtyMap[name]`, 0 when the name is absent. */
  function Lookup(overrides: map<string, real>, name: string): real
  {
    if name in overrides then overrides[name] else 0.0
  }

  /** The quantity-resolution rule: in-row value, else override, else 1. */
  function ResolveQty(inRow: real, override: real): (q: real)
    ensures q != 0.0
    ensures inRow != 0.0 ==> q == inRow
    ensures inRow == 0.0 && override != 0.0 ==> q == override
    ensures inRow == 0.0 && override == 0.0 ==> q == 1.0
  {
    if inRow != 0.0 then inRow
    else if override != 0.0 then override
    else 1.0
  }

  /** The `extraQtyLine` pairs `Product:qty`, later pairs overriding earlier
      ones; a value that is not a number is stored as 0. */
  function ParseOverrides(extra: string): map<string, real>
  {
    if Text.Trim(extra) == "" then map[]
    else AddOverrides(map[], Text.NonEmpty(Text.TrimAll(Text.Split(extra, ','))))
  }

  /** The product a `Product:qty` pair names: its first `:` field, trimmed. */
  function OverrideKey(pair: string): string
  {
    Text.Trim(Text.Split(pair, ':')[0])
  }

  /** The quantity a pair stores, `Number(m[1]) || 0`: 0 when the value is
      missing or not a number. */
  function OverrideValue(pair: string): real
  {
    var m := Text.TrimAll(Text.Split(pair, ':'));
    Numbers.OrZero(NumberOf(if |m| > 1 then Some(m[1]) else None))
  }

  function AddOverrides(acc: map<string, real>, pairs: seq<string>): (r: map<string, real>)
    ensures forall k :: k in acc ==> k in r
    ensures forall k :: k in r ==> k in acc || k != ""
    decreases |pairs|
  {
    if pairs == [] then acc
    else
      var key := OverrideKey(pairs[0]);
      var acc' := if key != "" then acc[key := OverrideValue(pairs[0])] else acc;
      AddOverrides(acc', pairs[1..])
  }

  /** A product that no pair names keeps its entry, or its absence. */
  lemma {:induction false} OverrideUntouched(acc: map<string, real>, pairs: seq<string>, k: string)
    requires forall j :: 0 <= j < |pairs| ==> OverrideKey(pairs[j]) != k
    ensures k in AddOverrides(acc, pairs) <==> k in acc
    ensures k in acc ==> AddOverrides(acc, pairs)[k] == acc[k]
    decreases |pairs|
  {
    if pairs != [] {
      var key := OverrideKey(pairs[0]);
      var acc' := if key != "" then acc[key := OverrideValue(pairs[0])] else acc;
      assert key != k;
      OverrideUntouched(acc', pairs[1..], k);
    }
  }

  /** The last pair naming a product sets its quantity, whatever earlier
      pairs or the starting map held. */
  lemma {:induction false} OverrideLastWins(acc: map<string, real>, pairs: seq<string>, i: nat)
    requires i < |pairs| && OverrideKey(pairs[i]) != ""
    requires forall j :: i < j < |pairs| ==> OverrideKey(pairs[j]) != OverrideKey(pairs[i])
    ensures OverrideKey(pairs[i]) in AddOverrides(acc, pairs)
    ensures AddOverrides(acc, pairs)[OverrideKey(pairs[i])] == OverrideValue(pairs[i])
    decreases |pairs|
  {
    var key := OverrideKey(pairs[0]);
    var acc' := if key != "" then acc[key := OverrideValue(pairs[0])] else acc;
    if i == 0 {
      OverrideUntouched(acc', pairs[1..], key);
    } else {
      OverrideLastWins(acc', pairs[1..], i - 1);
    }
  }

  /** One line of input, or `None` when it has fewer than two non-empty fields. */
  function ParseProduct(line: string, overrides: map<string, real>): (r: Option<Product>)
    ensures r.None? <==> |Text.NonEmpty(Text.Fields(line))| < 2
    ensures r.Some? ==> r.value.qty != 0.0
  {
    var parts := Text.NonEmpty(Text.Fields(line));
    if |parts| < 2 then None
    else
      var segs := seq(|parts| - 1, i requires 0 <= i < |parts| - 1 => ParseSegment(parts[i + 1]));
      Some(Product(parts[0], ResolveQty(InRowQty(segs), Lookup(overrides, parts[0])), ComponentsOf(segs)))
  }

  /** The products of all lines that are not skipped, in input order. */
  function ParseProducts(lines: seq<string>, overrides: map<string, real>): (ps: seq<Product>)
    ensures |ps| <= |lines|
    ensures forall i :: 0 <= i < |ps| ==> ps[i].qty != 0.0
  {
    if lines == [] then []
    else
      var init := ParseProducts(lines[..|lines| - 1], overrides);
      match ParseProduct(lines[|lines| - 1], overrides)
      case None => init
      case Some(p) => init + [p]
  }

  /** What a product of quantity `q` needs of component `c`: the sum, over
      its entries named `c`, of `q` times the per-unit quantity, where a
      per-unit value that is `NaN` counts as 0. */
  function Need(q: real, comps: seq<Component>, c: string): real
  {
    if comps == [] then 0.0
    else
      var last := comps[|comps| - 1];
      Need(q, comps[..|comps| - 1], c) + (if last.name == c then q * Numbers.OrZero(last.perUnit) else 0.0)
  }

  /** Sum of the per-unit quantities of the entries named `c`. */
  function PerUnitTotal(comps: seq<Component>, c: string): real
  {
    if comps == [] then 0.0
    else
      var last := comps[|comps| - 1];
      PerUnitTotal(comps[..|comps| - 1], c) + (if last.name == c then Numbers.OrZero(last.perUnit) else 0.0)
  }

  /** A product's need is its quantity times its summed per-unit quantity. */
  lemma {:induction false} NeedIsScaled(q: real, comps: seq<Component>, c: string)
    ensures Need(q, comps, c) == q * PerUnitTotal(comps, c)
  {
    if comps != [] {
      NeedIsScaled(q, comps[..|comps| - 1], c);
    }
  }

  /** The specified total of component `c`: the sum over products of their
      needs of `c`. */
  function ComponentTotal(products: seq<Product>, c: string): real
  {
    if products == [] then 0.0
    else
      var last := products[|products| - 1];
      ComponentTotal(products[..|products| - 1], c) + Need(last.qty, last.comps, c)
  }

  /** Some entry of `comps` names component `c`. */
  predicate NameIn(comps: seq<Component>, c: string)
  {
    comps != [] && (NameIn(comps[..|comps| - 1], c) || comps[|comps| - 1].name == c)
  }

  /** Some product lists component `c`. */
  predicate Mentioned(products: seq<Product>, c: string)
  {
    products != [] && (Mentioned(products[..|products| - 1], c) || NameIn(products[|products| - 1].comps, c))
  }

  lemma {:induction false} NameInIndex(comps: seq<Component>, c: string)
    ensures NameIn(comps, c) <==> exists j :: 0 <= j < |comps| && comps[j].name == c
  {
    if comps != [] {
      var init := comps[..|comps| - 1];
      NameInIndex(init, c);
      if exists j :: 0 <= j < |comps| && comps[j].name == c {
        var j :| 0 <= j < |comps| && comps[j].name == c;
        if j < |init| {
          assert init[j] == comps[j];
        }
      }
      if NameIn(init, c) {
        var j :| 0 <= j < |init| && init[j].name == c;
        assert comps[j] == init[j];
      }
    }
  }

  /** Exactly the components named by `ps` or `comps` have a running total. */
  ghost predicate KeysAccumulated(totals: map<string, real>, ps: seq<Product>, comps: seq<Component>)
  {
    forall c :: c in totals <==> Mentioned(ps, c) || NameIn(comps, c)
  }

  /** Each running total is the total of `ps` plus `q` times the per-unit
      quantity in `comps`; a component without one has nothing to add. */
  ghost predicate ValuesAccumulated(totals: map<string, real>, ps: seq<Product>, q: real, comps: seq<Component>)
  {
    && (forall c :: c in totals ==> totals[c] == ComponentTotal(ps, c) + Need(q, comps, c))
    && (forall c :: c !in totals ==> ComponentTotal(ps, c) == 0.0 && Need(q, comps, c) == 0.0)
  }

  /** The running totals after adding an entry's need `q * perUnit`. */
  function AddNeed(totals: map<string, real>, q: real, comp: Component): map<string, real>
  {
    var before := if comp.name in totals then totals[comp.name] else 0.0;
    totals[comp.name := before + q * Numbers.OrZero(comp.perUnit)]
  }

  lemma AccumulateEntryKeys(totals: map<string, real>, ps: seq<Product>, comps: seq<Component>, j: nat, q: real)
    requires j < |comps|
    requires KeysAccumulated(totals, ps, comps[..j])
    ensures KeysAccumulated(AddNeed(totals, q, comps[j]), ps, comps[..j + 1])
  {
    assert comps[..j + 1][..j] == comps[..j];
  }

  lemma NeedStep(q: real, comps: seq<Component>, j: nat, c: string)
    requires j < |comps|
    ensures Need(q, comps[..j + 1], c)
         == Need(q, comps[..j], c) + (if comps[j].name == c then q * Numbers.OrZero(comps[j].perUnit) else 0.0)
  {
    assert comps[..j + 1][..j] == comps[..j];
  }

  lemma AccumulateEntryValues(totals: map<string, real>, ps: seq<Product>, q: real, comps: seq<Component>, j: nat)
    requires j < |comps|
    requires ValuesAccumulated(totals, ps, q, comps[..j])
    ensures ValuesAccumulated(AddNeed(totals, q, comps[j]), ps, q, comps[..j + 1])
  {
    var comp := comps[j];
    var t := AddNeed(totals, q, comp);
    forall c | c !in t
      ensures ComponentTotal(ps, c) == 0.0 && Need(q, comps[..j + 1], c) == 0.0
    {
      NeedStep(q, comps, j, c);
    }
    forall c | c in t
      ensures t[c] == ComponentTotal(ps, c) + Need(q, comps[..j + 1], c)
    {
      NeedStep(q, comps, j, c);
    }
  }

  lemma AccumulateProductKeys(totals: map<string, real>, ps: seq<Product>, i: nat)
    requires i < |ps|
    requires KeysAccumulated(totals, ps[..i], ps[i].comps)
    ensures KeysAccumulated(totals, ps[..i + 1], [])
  {
    var all := ps[..i + 1];
    assert all[..i] == ps[..i];
    assert all[i] == ps[i];
    assert forall c :: Mentioned(all, c) <==> Mentioned(ps[..i], c) || NameIn(ps[i].comps, c);
  }

  lemma AccumulateProductValues(totals: map<string, real>, ps: seq<Product>, i: nat)
    requires i < |ps|
    requires ValuesAccumulated(totals, ps[..i], ps[i].qty, ps[i].comps)
    ensures ValuesAccumulated(totals, ps[..i + 1], 0.0, [])
  {
    var all := ps[..i + 1];
    assert all[..i] == ps[..i];
    assert all[i] == ps[i];
    assert forall c :: ComponentTotal(all, c) == ComponentTotal(ps[..i], c) + Need(ps[i].qty, ps[i].comps, c);
  }

  /** The component totals accumulated as the source does, product by
      product and entry by entry, equal the specified sums, and exactly the
      mentioned components have a total. */
  method Totals(products: seq<Product>) returns (totals: map<string, real>)
    ensures forall c :: c in totals <==> Mentioned(products, c)
    ensures forall c :: c in totals ==> totals[c] == ComponentTotal(products, c)
  {
    totals := map[];
    for i := 0 to |products|
      invariant KeysAccumulated(totals, products[..i], [])
      invariant ValuesAccumulated(totals, products[..i], 0.0, [])
    {
      var p := products[i];
      for j := 0 to |p.comps|
        invariant KeysAccumulated(totals, products[..i], p.comps[..j])
        invariant ValuesAccumulated(totals, products[..i], p.qty, p.comps[..j])
      {
        AccumulateEntryKeys(totals, products[..i], p.comps, j, p.qty);
        AccumulateEntryValues(totals, products[..i], p.qty, p.comps, j);
        totals := AddNeed(totals, p.qty, p.comps[j]);
      }
      assert p.comps[..|p.comps|] == p.comps;
      AccumulateProductKeys(totals, products, i);
      AccumulateProductValues(totals, products, i);
    }
    assert products[..|products|] == products;
  }

  /** `computeBOM(lines, extraQtyLine)`. */
  method ComputeBom(lines: seq<string>, extra: string) returns (r: BomResult)
    ensures r.products == ParseProducts(lines, ParseOverrides(extra))
    ensures forall i :: 0 <= i < |r.products| ==> r.products[i].qty != 0.0
    ensures forall c :: c in r.totals <==> Mentioned(r.products, c)
    ensures forall c :: c in r.totals ==> r.totals[c] == ComponentTotal(r.products, c)
  {
    var products := ParseProducts(lines, ParseOverrides(extra));
    var totals := Totals(products);
    r := BomResult(products, totals);
  }

  /** The worked example: A with quantity 2 uses X:3 and Y:1, B with
      quantity 1 uses X:2, so X totals 2*3 + 1*2 = 8 and Y totals 2*1 = 2. */
  lemma ExampleTotals()
    ensures
      var ps := [Product("A", 2.0, [Component("X", Some(3.0)), Component("Y", Some(1.0))]),
                 Product("B", 1.0, [Component("X", Some(2.0))])];
      ComponentTotal(ps, "X") == 8.0 && ComponentTotal(ps, "Y") == 2.0
  {
    var ps := [Product("A", 2.0, [Component("X", Some(3.0)), Component("Y", Some(1.0))]),
               Product("B", 1.0, [Component("X", Some(2.0))])];
    var a, b := ps[0].comps, ps[1].comps;
    assert a[..1] == [a[0]] && a[..1][..0] == [] && b[..0] == [];
    assert Need(2.0, a[..1], "X") == 6.0 && Need(2.0, a[..1], "Y") == 0.0;
    assert Need(2.0, a, "X") == 6.0 && Need(2.0, a, "Y") == 2.0;
    assert Need(1.0, b, "X") == 2.0 && Need(1.0, b, "Y") == 0.0;
    assert ps[..1] == [ps[0]] && ps[..1][..0] == [];
    assert ComponentTotal(ps[..1], "X") == 6.0 && ComponentTotal(ps[..1], "Y") == 2.0;
  }
}
