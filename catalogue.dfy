// The product catalogue: a code-to-product table built from a list (lib/catalogue.rb).
module Catalogues {
  import opened Options
  import opened Products

  /** The codes that occur in `ps`. */
  function CodesOf(ps: seq<Product>): set<string>
  {
    set i | 0 <= i < |ps| :: ps[i].code
  }

  /** No two products in `ps` share a code. */
  predicate UniqueCodes(ps: seq<Product>)
  {
    forall i, j :: 0 <= i < j < |ps| ==> ps[i].code != ps[j].code
  }

  predicate Distinct(ks: seq<string>)
  {
    forall i, j :: 0 <= i < j < |ks| ==> ks[i] != ks[j]
  }

  function Lookup(m: map<string, Product>, code: string): Option<Product>
  {
    if code in m then Some(m[code]) else None
  }

  /** Reference definition: the last product in `ps` with the given code, searching from the end. */
  ghost function LastWith(ps: seq<Product>, code: string): (r: Option<Product>)
    ensures r.None? <==> forall i :: 0 <= i < |ps| ==> ps[i].code != code
    ensures r.Some? ==> r.value.code == code && r.value in ps
  {
    if ps == [] then None
    else if ps[|ps| - 1].code == code then Some(ps[|ps| - 1])
    else LastWith(ps[..|ps| - 1], code)
  }

  /** A product with the code, followed by none, is the one `LastWith` finds. */
  lemma {:induction false} LastWithIsLast(ps: seq<Product>, code: string, i: nat)
    requires i < |ps| && ps[i].code == code
    requires forall j :: i < j < |ps| ==> ps[j].code != code
    ensures LastWith(ps, code) == Some(ps[i])
    decreases |ps|
  {
    if i < |ps| - 1 {
      LastWithIsLast(ps[..|ps| - 1], code, i);
    }
  }

  /** Seen from the front: a later product with the code overrides the head. */
  lemma {:induction false} LastWithCons(ps: seq<Product>, code: string)
    requires ps != []
    ensures LastWith(ps, code) == Or(LastWith(ps[1..], code), if ps[0].code == code then Some(ps[0]) else None)
    decreases |ps|
  {
    var n := |ps|;
    if n > 1 && ps[n - 1].code != code {
      var init := ps[..n - 1];
      LastWithCons(init, code);
      assert init[1..] == ps[1..][..n - 2];
      assert ps[1..][n - 2] == ps[n - 1];
    } else if n > 1 {
      assert ps[1..][n - 2] == ps[n - 1];
    }
  }

  /** `each_with_object` over `ps`, front to back: every product is stored under its code, replacing any earlier one. */
  function Insert(m: map<string, Product>, ps: seq<Product>): (r: map<string, Product>)
    ensures forall code :: Lookup(r, code) == Or(LastWith(ps, code), Lookup(m, code))
    decreases |ps|
  {
    if ps == [] then m
    else
      var r := Insert(m[ps[0].code := ps[0]], ps[1..]);
      assert forall code :: Lookup(r, code) == Or(LastWith(ps, code), Lookup(m, code)) by {
        forall code ensures Lookup(r, code) == Or(LastWith(ps, code), Lookup(m, code)) {
          LastWithCons(ps, code);
        }
      }
      r
  }

  /** The order in which a Ruby hash lists its keys when `ps` is inserted after keys `ks`: a code joins at its first insertion. */
  function NewCodes(ks: seq<string>, ps: seq<Product>): (r: seq<string>)
    ensures forall code :: code in r <==> code in ks || code in CodesOf(ps)
    ensures Distinct(ks) ==> Distinct(r)
    decreases |ps|
  {
    if ps == [] then ks
    else
      var r := NewCodes(if ps[0].code in ks then ks else ks + [ps[0].code], ps[1..]);
      assert forall code :: code in CodesOf(ps) <==> code == ps[0].code || code in CodesOf(ps[1..]) by {
        forall code ensures code in CodesOf(ps) <==> code == ps[0].code || code in CodesOf(ps[1..]) {
          if code in CodesOf(ps) {
            var i :| 0 <= i < |ps| && ps[i].code == code;
            if i > 0 { assert ps[1..][i - 1].code == code; }
          }
          if code in CodesOf(ps[1..]) {
            var i :| 0 <= i < |ps[1..]| && ps[1..][i].code == code;
            assert ps[i + 1].code == code;
          }
        }
      }
      r
  }

  /** The key order grows by exactly one per input product when, and only when, no code repeats. */
  lemma {:induction false} NewCodesLength(ks: seq<string>, ps: seq<Product>)
    ensures |NewCodes(ks, ps)| <= |ks| + |ps|
    ensures |NewCodes(ks, ps)| == |ks| + |ps| <==> UniqueCodes(ps) && forall i :: 0 <= i < |ps| ==> ps[i].code !in ks
    decreases |ps|
  {
    if ps != [] {
      var p, rest := ps[0], ps[1..];
      if p.code in ks {
        NewCodesLength(ks, rest);
      } else {
        NewCodesLength(ks + [p.code], rest);
        var unseen := forall i :: 0 <= i < |rest| ==> rest[i].code !in ks + [p.code];
        assert UniqueCodes(ps) && (forall i :: 0 <= i < |ps| ==> ps[i].code !in ks)
           <==> UniqueCodes(rest) && unseen by {
          if UniqueCodes(ps) && (forall i :: 0 <= i < |ps| ==> ps[i].code !in ks) {
            forall i, j | 0 <= i < j < |rest| ensures rest[i].code != rest[j].code {
              assert rest[i] == ps[i + 1] && rest[j] == ps[j + 1];
            }
            forall i | 0 <= i < |rest| ensures rest[i].code !in ks + [p.code] {
              assert rest[i] == ps[i + 1];
            }
          }
          if UniqueCodes(rest) && unseen {
            forall i, j | 0 <= i < j < |ps| ensures ps[i].code != ps[j].code {
              assert ps[j] == rest[j - 1];
              if i > 0 { assert ps[i] == rest[i - 1]; }
            }
            forall i | 0 <= i < |ps| ensures ps[i].code !in ks {
              if i > 0 { assert ps[i] == rest[i - 1]; }
            }
          }
        }
      }
    }
  }

  /** The index of the first product in `ps` with the code, or `|ps|` when none has it. */
  function FirstIndex(ps: seq<Product>, code: string): (k: nat)
    ensures k <= |ps|
    ensures k < |ps| ==> ps[k].code == code
    ensures forall j :: 0 <= j < k ==> ps[j].code != code
  {
    if ps == [] then 0
    else if ps[0].code == code then 0
    else 1 + FirstIndex(ps[1..], code)
  }

  /**
   * The keys already present keep their places, and the codes `ps` adds follow them
   * in the order of their first occurrence in `ps`.
   */
  lemma {:induction false} NewCodesOrder(ks: seq<string>, ps: seq<Product>)
    requires Distinct(ks)
    ensures |NewCodes(ks, ps)| >= |ks| && NewCodes(ks, ps)[..|ks|] == ks
    ensures forall i, j :: |ks| <= i < j < |NewCodes(ks, ps)| ==>
      FirstIndex(ps, NewCodes(ks, ps)[i]) < FirstIndex(ps, NewCodes(ks, ps)[j])
    decreases |ps|
  {
    if ps != [] {
      var c, rest := ps[0].code, ps[1..];
      var r := NewCodes(ks, ps);
      var next := if c in ks then ks else ks + [c];
      assert Distinct(next);
      NewCodesOrder(next, rest);
      assert r == NewCodes(next, rest);
      assert r[..|ks|] == next[..|ks|] == ks;
      assert Distinct(r);
      forall i | |ks| <= i < |r| ensures r[i] != c ==> FirstIndex(ps, r[i]) == 1 + FirstIndex(rest, r[i]) {
      }
      forall i | |next| <= i < |r| ensures r[i] != c {
        if c in ks {
          var k :| 0 <= k < |ks| && ks[k] == c;
          assert r[k] == c;
        } else {
          assert r[|ks|] == next[|ks|] == c;
        }
      }
    }
  }

  /** The products stored under `ks`, in that order. */
  function Values(m: map<string, Product>, ks: seq<string>): (r: seq<Product>)
    requires forall i :: 0 <= i < |ks| ==> ks[i] in m
    ensures |r| == |ks|
    ensures forall i :: 0 <= i < |ks| ==> r[i] == m[ks[i]]
  {
    if ks == [] then [] else [m[ks[0]]] + Values(m, ks[1..])
  }

  /** A catalogue built once from a list of products and never changed afterwards. */
  class Catalogue {
    /** The list the catalogue was built from. */
    ghost const source: seq<Product>
    /** `@products`: code to product. */
    const products: map<string, Product>
    /** The keys of `@products` in the order Ruby's hash keeps them (first insertion). */
    const codes: seq<string>

    ghost predicate Valid()
    {
      products == Insert(map[], source) && codes == NewCodes([], source)
    }

    constructor (ps: seq<Product>)
      ensures source == ps && Valid()
    {
      var m: map<string, Product> := map[];
      var ks: seq<string> := [];
      for i := 0 to |ps|
        invariant Insert(m, ps[i..]) == Insert(map[], ps)
        invariant NewCodes(ks, ps[i..]) == NewCodes([], ps)
      {
        var p := ps[i];
        assert ps[i..][1..] == ps[i + 1..];
        if p.code !in ks {
          ks := ks + [p.code];
        }
        m := m[p.code := p];
      }
      assert ps[|ps|..] == [];
      source := ps;
      products := m;
      codes := ks;
    }

    /** `find`: the last listed product with the code, or failure when no listed product has it. */
    function Find(code: string): (r: Option<Product>)
      requires Valid()
      ensures r == LastWith(source, code)
      ensures r.Some? ==> r.value.code == code && r.value in source
      ensures r.None? <==> forall i :: 0 <= i < |source| ==> source[i].code != code
    {
      Lookup(products, code)
    }

    /** `all`: one product per distinct listed code, each the one `Find` returns, in first-listed order. */
    function All(): (r: seq<Product>)
      requires Valid()
      ensures Distinct(codes) && |r| == |codes|
      ensures forall i :: 0 <= i < |r| ==> r[i].code == codes[i] && Find(codes[i]) == Some(r[i])
      ensures forall code :: code in codes <==> code in CodesOf(source)
      ensures |r| <= |source|
      ensures |r| == |source| <==> UniqueCodes(source)
      ensures forall i, j :: 0 <= i < j < |r| ==> FirstIndex(source, r[i].code) < FirstIndex(source, r[j].code)
    {
      NewCodesOrder([], source);
      assert forall i :: 0 <= i < |codes| ==> codes[i] in products && products[codes[i]].code == codes[i] by {
        forall i | 0 <= i < |codes| ensures codes[i] in products && products[codes[i]].code == codes[i] {
          var code := codes[i];
          assert code in CodesOf(source);
          var j :| 0 <= j < |source| && source[j].code == code;
          assert Lookup(products, code) == LastWith(source, code);
        }
      }
      NewCodesLength([], source);
      Values(products, codes)
    }
  }
}
