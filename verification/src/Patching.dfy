// Instrumentation replaces attributes one after another and puts them back in reverse.

module Patching {

  // The attributes of every patched owner; a name is an owner and an attribute.
  type Attributes<V> = map<string, V>

  datatype Patch<V> = Patch(name: string, wrapper: V)
  datatype Saved<V> = Saved(name: string, original: V)

  class Namespace<V> {
    var attributes: Attributes<V>

    constructor (attributes: Attributes<V>)
      ensures this.attributes == attributes
    {
      this.attributes := attributes;
    }

    // The patching half of _instrument: remember what was there, put the wrapper in its place.
    method Instrument(patches: seq<Patch<V>>) returns (restores: seq<Saved<V>>)
      requires forall p | p in patches :: p.name in attributes
      modifies this
      ensures restores == SavedBy(old(attributes), patches)
      ensures attributes == Patched(old(attributes), patches)
    {
      restores := [];
      for i := 0 to |patches|
        invariant attributes == Patched(old(attributes), patches[..i])
        invariant restores == SavedBy(old(attributes), patches[..i])
        invariant attributes.Keys == old(attributes).Keys
      {
        var p := patches[i];
        assert p in patches && patches[..i + 1][..i] == patches[..i];
        restores := restores + [Saved(p.name, attributes[p.name])];
        attributes := attributes[p.name := p.wrapper];
      }
      assert patches[..|patches|] == patches;
    }

    // The restoring half of _restore
    method Restore(restores: seq<Saved<V>>)
      modifies this
      ensures attributes == PutBack(old(attributes), restores)
    {
      var i := |restores|;
      assert restores[..i] == restores;
      while i > 0
        invariant 0 <= i <= |restores|
        invariant PutBack(attributes, restores[..i]) == PutBack(old(attributes), restores)
      {
        i := i - 1;
        assert restores[..i + 1][..i] == restores[..i];
        attributes := attributes[restores[i].name := restores[i].original];
      }
    }
  }

  function Patched<V>(m: Attributes<V>, patches: seq<Patch<V>>): Attributes<V> {
    if patches == [] then m
    else
      var n := |patches| - 1;
      Patched(m, patches[..n])[patches[n].name := patches[n].wrapper]
  }

  function SavedBy<V>(m: Attributes<V>, patches: seq<Patch<V>>): (r: seq<Saved<V>>)
    requires forall p | p in patches :: p.name in m
    ensures |r| == |patches|
  {
    if patches == [] then []
    else
      var n := |patches| - 1;
      PatchedKeys(m, patches[..n]);
      SavedBy(m, patches[..n]) + [Saved(patches[n].name, Patched(m, patches[..n])[patches[n].name])]
  }

  // The last saved value is put back first.
  function PutBack<V>(m: Attributes<V>, restores: seq<Saved<V>>): Attributes<V>
    decreases |restores|
  {
    if restores == [] then m
    else
      var n := |restores| - 1;
      PutBack(m[restores[n].name := restores[n].original], restores[..n])
  }

  // What putting back in the order of patching would do instead.
  function PutBackForward<V>(m: Attributes<V>, restores: seq<Saved<V>>): Attributes<V> {
    if restores == [] then m
    else
      var n := |restores| - 1;
      PutBackForward(m, restores[..n])[restores[n].name := restores[n].original]
  }

  lemma {:induction false} PatchedKeys<V>(m: Attributes<V>, patches: seq<Patch<V>>)
    requires forall p | p in patches :: p.name in m
    ensures Patched(m, patches).Keys == m.Keys
  {
    if patches != [] {
      var n := |patches| - 1;
      assert patches[n] in patches;
      PatchedKeys(m, patches[..n]);
    }
  }

  // While patched, a name has the wrapper of the last patch for it, and any other its original.
  lemma {:induction false} LastWrapper<V>(m: Attributes<V>, patches: seq<Patch<V>>, name: string)
    requires name in m
    ensures name in Patched(m, patches)
    ensures (forall p | p in patches :: p.name != name) ==> Patched(m, patches)[name] == m[name]
    ensures forall i | 0 <= i < |patches| && patches[i].name == name
                       && (forall j | i < j < |patches| :: patches[j].name != name) ::
              Patched(m, patches)[name] == patches[i].wrapper
  {
    if patches != [] {
      var n := |patches| - 1;
      LastWrapper(m, patches[..n], name);
      assert patches == patches[..n] + [patches[n]];
      assert patches[n] in patches && forall p | p in patches[..n] :: p in patches;
    }
  }

  // Each patch saves what the patches before it have left under its name.
  lemma {:induction false} SavedThen<V>(m: Attributes<V>, patches: seq<Patch<V>>, i: nat)
    requires (forall p | p in patches :: p.name in m) && i < |patches|
    ensures forall p | p in patches[..i] :: p in patches
    ensures patches[i] in patches && patches[i].name in Patched(m, patches[..i])
    ensures SavedBy(m, patches)[i] == Saved(patches[i].name, Patched(m, patches[..i])[patches[i].name])
  {
    var n := |patches| - 1;
    assert patches[i] in patches;
    PatchedKeys(m, patches[..i]);
    if i < n {
      SavedThen(m, patches[..n], i);
      assert patches[..n][..i] == patches[..i];
    }
  }

  // Whatever is patched, and however often one name is patched again, restoring gives every name
  // its original value.
  lemma {:induction false} Restored<V>(m: Attributes<V>, patches: seq<Patch<V>>)
    requires forall p | p in patches :: p.name in m
    ensures PutBack(Patched(m, patches), SavedBy(m, patches)) == m
  {
    if patches != [] {
      var n := |patches| - 1;
      var before := Patched(m, patches[..n]);
      assert patches[n] in patches;
      PatchedKeys(m, patches[..n]);
      Restored(m, patches[..n]);
      var saved := SavedBy(m, patches);
      assert saved[..n] == SavedBy(m, patches[..n]);
      assert Patched(m, patches)[saved[n].name := saved[n].original] == before;
    }
  }

  // The order matters: put back forward, a name patched twice keeps the first wrapper.
  lemma ForwardKeepsWrapper<V>(m: Attributes<V>, name: string, first: V, second: V)
    requires name in m
    ensures var patches := [Patch(name, first), Patch(name, second)];
            PutBackForward(Patched(m, patches), SavedBy(m, patches)) == m[name := first]
  {
    var patches := [Patch(name, first), Patch(name, second)];
    assert patches[..1] == [Patch(name, first)] && patches[..1][..0] == [];
    assert Patched(m, patches[..1]) == m[name := first];
    var saved := SavedBy(m, patches);
    assert SavedBy(m, patches[..1]) == [Saved(name, m[name])];
    assert saved == [Saved(name, m[name]), Saved(name, first)];
    assert saved[..1] == [Saved(name, m[name])];
    assert Patched(m, patches) == m[name := first][name := second];
    assert PutBackForward(Patched(m, patches), saved[..1]) == m[name := first][name := second][name := m[name]];
  }
}
