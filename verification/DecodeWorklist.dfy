/**
 The decoded forms of a text that a publication scan looks at: the text, and whatever HTML unescaping and percent
 decoding (section 2.1 of RFC 3986) make of it. The two decoders are parameters.
 */
module DecodeWorklist {
  const MAXIMUM_PERCENT_DEPTH := 2

  datatype Decoders = Decoders(isHtml: bool, unescape: string -> string, unquote: string -> string)
  {
    /** An unescape that changes a text shortens it. */
    ghost predicate Shrinks() {
      forall t: string :: unescape(t) == t || |unescape(t)| < |t|
    }
  }

  // ----- what is to be scanned -----

  datatype Decoding = Unescape | Unquote

  /** The text after a sequence of decodings. */
  function Decode(ds: Decoders, text: string, steps: seq<Decoding>): string {
    if steps == [] then text
    else
      var before := Decode(ds, text, steps[..|steps| - 1]);
      match steps[|steps| - 1]
      case Unescape => ds.unescape(before)
      case Unquote => ds.unquote(before)
  }

  function Unquotes(steps: seq<Decoding>): nat {
    if steps == [] then 0
    else Unquotes(steps[..|steps| - 1]) + if steps[|steps| - 1] == Unquote then 1 else 0
  }

  /** Any number of unescapes, when the text is HTML, and at most two percent decodings, in any order. */
  predicate Allowed(ds: Decoders, steps: seq<Decoding>) {
    Unquotes(steps) <= MAXIMUM_PERCENT_DEPTH && (ds.isHtml || Unescape !in steps)
  }

  ghost predicate Reachable(ds: Decoders, text: string, t: string) {
    exists steps :: Allowed(ds, steps) && Decode(ds, text, steps) == t
  }

  // ----- the worklist -----

  /** A text and the number of percent decodings spent on it. */
  datatype Candidate = Candidate(text: string, depth: nat)

  /** The two forms that a candidate is decoded to; without HTML the first is the candidate itself. */
  function Variants(ds: Decoders, c: Candidate): (r: seq<Candidate>)
    ensures |r| == 2
  {
    [Candidate(if ds.isHtml then ds.unescape(c.text) else c.text, c.depth), Candidate(ds.unquote(c.text), c.depth + 1)]
  }

  /** A variant that is looked at: it differs from its candidate and is not too deep. */
  predicate Looked(c: Candidate, v: Candidate) {
    v.text != c.text && v.depth <= MAXIMUM_PERCENT_DEPTH
  }

  datatype Work = Work(pending: seq<Candidate>, seen: set<Candidate>, texts: seq<string>)

  function AddVariant(w: Work, c: Candidate, v: Candidate): Work {
    if !Looked(c, v) then w
    else
      Work(if v in w.seen then w.pending else w.pending + [v],
           w.seen + {v},
           if v.text in w.texts then w.texts else w.texts + [v.text])
  }

  /** An upper bound on the candidates that a candidate leads to. */
  ghost function TreeSize(ds: Decoders, c: Candidate): nat
    requires ds.Shrinks() && c.depth <= MAXIMUM_PERCENT_DEPTH
    decreases MAXIMUM_PERCENT_DEPTH - c.depth, |c.text|
  {
    var first, second := Variants(ds, c)[0], Variants(ds, c)[1];
    1 + (if Looked(c, first) then TreeSize(ds, first) else 0)
      + (if Looked(c, second) then TreeSize(ds, second) else 0)
  }

  ghost function TotalSize(ds: Decoders, pending: seq<Candidate>): nat
    requires ds.Shrinks() && forall c :: c in pending ==> c.depth <= MAXIMUM_PERCENT_DEPTH
  {
    if pending == [] then 0 else TreeSize(ds, pending[0]) + TotalSize(ds, pending[1..])
  }

  lemma {:induction false} TotalAppended(ds: Decoders, pending: seq<Candidate>, c: Candidate)
    requires ds.Shrinks() && (forall p :: p in pending ==> p.depth <= MAXIMUM_PERCENT_DEPTH)
    requires c.depth <= MAXIMUM_PERCENT_DEPTH
    ensures TotalSize(ds, pending + [c]) == TotalSize(ds, pending) + TreeSize(ds, c)
  {
    if pending == [] {
      assert pending + [c] == [c] && [c][1..] == [];
    } else {
      TotalAppended(ds, pending[1..], c);
      assert (pending + [c])[1..] == pending[1..] + [c];
    }
  }

  /** A candidate that some allowed decodings lead to, its depth being the number of percent decodings. */
  ghost predicate Derived(ds: Decoders, text: string, c: Candidate) {
    exists steps :: Allowed(ds, steps) && Decode(ds, text, steps) == c.text && Unquotes(steps) == c.depth
  }

  predicate NoRepeats(texts: seq<string>) {
    forall i, j :: 0 <= i < j < |texts| ==> texts[i] != texts[j]
  }

  /** What holds of the worklist after every addition. */
  ghost predicate Working(ds: Decoders, text: string, w: Work) {
    && (forall c :: c in w.pending <==> c in w.seen)
    && (forall c :: c in w.pending ==> Derived(ds, text, c) && c.depth <= MAXIMUM_PERCENT_DEPTH)
    && (forall t :: t in w.texts <==> exists c :: c in w.seen && c.text == t)
    && NoRepeats(w.texts) && w.texts != [] && w.texts[0] == text
    && Candidate(text, 0) in w.seen
  }

  predicate Expanded(ds: Decoders, w: Work, c: Candidate) {
    forall k :: 0 <= k < 2 && Looked(c, Variants(ds, c)[k]) ==> Variants(ds, c)[k] in w.seen
  }

  lemma DerivedVariant(ds: Decoders, text: string, c: Candidate, k: nat)
    requires Derived(ds, text, c) && k < 2 && Looked(c, Variants(ds, c)[k])
    ensures Derived(ds, text, Variants(ds, c)[k])
  {
    var steps :| Allowed(ds, steps) && Decode(ds, text, steps) == c.text && Unquotes(steps) == c.depth;
    var step := if k == 0 then Unescape else Unquote;
    var more := steps + [step];
    assert more[..|more| - 1] == steps;
    assert Allowed(ds, more) && Decode(ds, text, more) == Variants(ds, c)[k].text;
  }

  lemma AddKeeps(ds: Decoders, text: string, w: Work, c: Candidate, k: nat)
    requires Working(ds, text, w) && c in w.seen && k < 2
    ensures Working(ds, text, AddVariant(w, c, Variants(ds, c)[k]))
  {
    var v := Variants(ds, c)[k];
    if Looked(c, v) {
      DerivedVariant(ds, text, c, k);
      var w' := AddVariant(w, c, v);
      forall t
        ensures t in w'.texts <==> exists c :: c in w'.seen && c.text == t
      {
        assert v in w'.seen;
        assert forall d :: d in w'.seen <==> d in w.seen || d == v;
      }
    }
    hide Derived, Variants;
  }

  /** Every text that is reachable belongs to a candidate that spent no more percent decodings. */
  lemma {:induction false} ClosedReaches(ds: Decoders, text: string, w: Work, steps: seq<Decoding>)
    returns (c: Candidate)
    requires Working(ds, text, w) && (forall c :: c in w.seen ==> Expanded(ds, w, c)) && Allowed(ds, steps)
    ensures c in w.seen && c.text == Decode(ds, text, steps) && c.depth <= Unquotes(steps)
    decreases |steps|
  {
    if steps == [] {
      c := Candidate(text, 0);
    } else {
      var before := steps[..|steps| - 1];
      assert Unescape !in steps ==> Unescape !in before;
      c := ClosedReaches(ds, text, w, before);
      var k := if steps[|steps| - 1] == Unescape then 0 else 1;
      var v := Variants(ds, c)[k];
      assert Expanded(ds, w, c);
      assert steps[|steps| - 1] in steps;
      if Looked(c, v) {
        c := v;
      }
    }
  }

  lemma ClosedIsComplete(ds: Decoders, text: string, w: Work, t: string)
    requires Working(ds, text, w) && (forall c :: c in w.seen ==> Expanded(ds, w, c))
    ensures t in w.texts <==> Reachable(ds, text, t)
  {
    if t in w.texts {
      var c :| c in w.seen && c.text == t;
      assert Derived(ds, text, c);
    }
    if Reachable(ds, text, t) {
      var steps :| Allowed(ds, steps) && Decode(ds, text, steps) == t;
      var c := ClosedReaches(ds, text, w, steps);
    }
  }

  ghost predicate Shallow(pending: seq<Candidate>) {
    forall c :: c in pending ==> c.depth <= MAXIMUM_PERCENT_DEPTH
  }

  ghost function SizeIfLooked(ds: Decoders, c: Candidate, v: Candidate): nat
    requires ds.Shrinks()
  {
    if Looked(c, v) then TreeSize(ds, v) else 0
  }

  /** Nothing is taken off the worklist or forgotten. */
  ghost predicate Extends(w: Work, w': Work) {
    w.pending <= w'.pending && w.seen <= w'.seen
  }

  lemma ExtendsSelf(w: Work)
    ensures Extends(w, w)
  {
  }

  lemma ExtendsBeyond(w: Work, w': Work, index: nat)
    requires Extends(w, w') && index < |w.pending| && w.pending[index] in w.seen
    ensures index < |w'.pending| && w.pending[index] in w'.seen
  {
  }

  lemma ExtendsFurther(w: Work, w': Work, w'': Work)
    requires Extends(w, w') && Extends(w', w'')
    ensures Extends(w, w'')
  {
  }

  lemma AddSize(ds: Decoders, w: Work, c: Candidate, v: Candidate, from: nat)
    requires ds.Shrinks() && Shallow(w.pending) && from <= |w.pending|
    ensures var w' := AddVariant(w, c, v);
            && Extends(w, w') && |w.pending| <= |w'.pending| && Shallow(w'.pending) && (Looked(c, v) ==> v in w'.seen)
            && TotalSize(ds, w'.pending[from..]) <= TotalSize(ds, w.pending[from..]) + SizeIfLooked(ds, c, v)
  {
    if Looked(c, v) && v !in w.seen {
      TotalAppended(ds, w.pending[from..], v);
      assert (w.pending + [v])[from..] == w.pending[from..] + [v];
    }
  }

  lemma WorkingShallow(ds: Decoders, text: string, w: Work)
    requires Working(ds, text, w)
    ensures Shallow(w.pending)
  {
  }

  lemma ExpandedMore(ds: Decoders, w: Work, w': Work, c: Candidate)
    requires Expanded(ds, w, c) && Extends(w, w')
    ensures Expanded(ds, w', c)
  {
  }

  lemma FirstSize(ds: Decoders, pending: seq<Candidate>, index: nat)
    requires ds.Shrinks() && Shallow(pending) && index < |pending|
    ensures var c := pending[index];
            TotalSize(ds, pending[index..]) == 1 + SizeIfLooked(ds, c, Variants(ds, c)[0])
              + SizeIfLooked(ds, c, Variants(ds, c)[1]) + TotalSize(ds, pending[index + 1..])
  {
    assert pending[index..] == [pending[index]] + pending[index + 1..];
  }

  lemma VariantAdded(ds: Decoders, text: string, before: Work, w: Work, c: Candidate, k: nat, from: nat)
    requires ds.Shrinks() && Working(ds, text, w) && Shallow(w.pending) && c in w.seen && k < 2
    requires Extends(before, w) && from <= |w.pending|
    ensures var (v, w') := (Variants(ds, c)[k], AddVariant(w, c, Variants(ds, c)[k]));
            && Working(ds, text, w') && Shallow(w'.pending) && Extends(before, w') && w.seen <= w'.seen
            && |w.pending| <= |w'.pending| && (Looked(c, v) ==> v in w'.seen)
            && TotalSize(ds, w'.pending[from..]) <= TotalSize(ds, w.pending[from..]) + SizeIfLooked(ds, c, v)
  {
    AddKeeps(ds, text, w, c, k);
    AddSize(ds, w, c, Variants(ds, c)[k], from);
    ExtendsFurther(before, w, AddVariant(w, c, Variants(ds, c)[k]));
    hide Working, TotalSize, AddVariant, Looked, Shallow, Variants;
  }

  /** Look at both variants of a pending candidate. */
  method Expand(ds: Decoders, ghost text: string, before: Work, index: nat) returns (w: Work)
    requires ds.Shrinks() && index < |before.pending| && Working(ds, text, before)
    ensures Working(ds, text, w) && Extends(before, w)
    ensures Expanded(ds, w, before.pending[index])
    ensures TotalSize(ds, w.pending[index + 1..]) < TotalSize(ds, before.pending[index..])
  {
    var candidate := before.pending[index];
    var variants := Variants(ds, candidate);
    WorkingShallow(ds, text, before);
    FirstSize(ds, before.pending, index);
    assert candidate in before.seen;
    ExtendsSelf(before);
    hide Working, TreeSize, TotalSize, Variants, AddVariant, Looked, Shallow, Extends;
    w := before;
    ghost var sizes := [SizeIfLooked(ds, candidate, variants[0]), SizeIfLooked(ds, candidate, variants[1])];
    for k := 0 to 2
      invariant Working(ds, text, w) && Shallow(w.pending) && Extends(before, w) && index < |w.pending|
      invariant forall m :: 0 <= m < k && Looked(candidate, variants[m]) ==> variants[m] in w.seen
      invariant TotalSize(ds, w.pending[index + 1..])
                <= TotalSize(ds, before.pending[index + 1..])
                   + (if k == 0 then 0 else if k == 1 then sizes[0] else sizes[0] + sizes[1])
    {
      ExtendsBeyond(before, w, index);
      VariantAdded(ds, text, before, w, candidate, k, index + 1);
      w := AddVariant(w, candidate, variants[k]);
    }
  }

  /** Exactly the texts reachable from a text, each once and the text itself first. */
  method ScanTexts(ds: Decoders, text: string) returns (texts: seq<string>)
    requires ds.Shrinks()
    ensures forall t :: t in texts <==> Reachable(ds, text, t)
    ensures NoRepeats(texts) && texts != [] && texts[0] == text
  {
    var w := Work([Candidate(text, 0)], {Candidate(text, 0)}, [text]);
    assert Decode(ds, text, []) == text && Allowed(ds, []);
    var index := 0;
    while index < |w.pending|
      invariant index <= |w.pending| && Working(ds, text, w)
      invariant forall i :: 0 <= i < index ==> Expanded(ds, w, w.pending[i])
      decreases TotalSize(ds, w.pending[index..])
    {
      ghost var before := w;
      w := Expand(ds, text, w, index);
      forall i | 0 <= i < index + 1
        ensures Expanded(ds, w, w.pending[i])
      {
        assert w.pending[i] == before.pending[i];
        if i < index {
          ExpandedMore(ds, before, w, before.pending[i]);
        }
      }
      index := index + 1;
    }
    forall t
      ensures t in w.texts <==> Reachable(ds, text, t)
    {
      ClosedIsComplete(ds, text, w, t);
    }
    return w.texts;
  }
}
