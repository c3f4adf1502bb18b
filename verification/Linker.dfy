/** Linking: library addresses are spliced over the placeholders of an artifact's bytecode,
    one fixup at a time. */
module Linker {

  /** Byte positions in the code, which the string writes as two digits each after its 0x. */
  datatype Fixup = Fixup(start: nat, length: nat)

  datatype LibraryRefs = LibraryRefs(name: string, fixups: seq<Fixup>)

  datatype FileRefs = FileRefs(name: string, libraries: seq<LibraryRefs>)

  /** A fixup with the address that goes there. */
  datatype Patch = Patch(fixup: Fixup, address: string)

  /** The first n characters, or all of a shorter string. */
  function Head(s: string, n: nat): string { if n <= |s| then s[..n] else s }

  /** What follows the first n characters, or nothing. */
  function Tail(s: string, n: nat): string { if n <= |s| then s[n..] else "" }

  function Begin(f: Fixup): nat { 2 + f.start * 2 }

  function End(f: Fixup): nat { 2 + (f.start + f.length) * 2 }

  function Splice(code: string, p: Patch): string {
    Head(code, Begin(p.fixup)) + Tail(p.address, 2) + Tail(code, End(p.fixup))
  }

  function Link(code: string, ps: seq<Patch>): string {
    if ps == [] then code else Splice(Link(code, ps[..|ps| - 1]), ps[|ps| - 1])
  }

  // ---- The patches of an artifact, in iteration order ----

  function PatchesOfFixups(fixups: seq<Fixup>, address: string): seq<Patch> {
    seq(|fixups|, i requires 0 <= i < |fixups| => Patch(fixups[i], address))
  }

  /** Libraries without an address contribute nothing. */
  function PatchesOfLibraries(libs: seq<LibraryRefs>, addresses: map<string, string>): seq<Patch> {
    if libs == [] then [] else
      var last := libs[|libs| - 1];
      PatchesOfLibraries(libs[..|libs| - 1], addresses)
      + if last.name in addresses then PatchesOfFixups(last.fixups, addresses[last.name]) else []
  }

  function Patches(files: seq<FileRefs>, addresses: map<string, string>): seq<Patch> {
    if files == [] then [] else
      Patches(files[..|files| - 1], addresses) + PatchesOfLibraries(files[|files| - 1].libraries, addresses)
  }

  method LinkBytecode(artifact: string, files: seq<FileRefs>, addresses: map<string, string>) returns (code: string)
    ensures code == Link(artifact, Patches(files, addresses))
  {
    hide Link, Patches, PatchesOfLibraries, PatchesOfFixups;
    NoPatches(artifact, addresses);
    code := artifact;
    assert files[..0] == [];
    for i := 0 to |files|
      invariant code == Link(artifact, Patches(files[..i], addresses))
    {
      var libs := files[i].libraries;
      ghost var before := Patches(files[..i], addresses);
      assert libs[..0] == [] && before + [] == before;
      for j := 0 to |libs|
        invariant code == Link(artifact, before + PatchesOfLibraries(libs[..j], addresses))
      {
        ghost var sofar := before + PatchesOfLibraries(libs[..j], addresses);
        LibraryStep(before, libs, addresses, j);
        if libs[j].name !in addresses {
          assert sofar + [] == sofar;
          continue;
        }
        var addr, fixups := addresses[libs[j].name], libs[j].fixups;
        NoFixups(addr);
        assert fixups[..0] == [] && sofar + [] == sofar;
        for k := 0 to |fixups|
          invariant code == Link(artifact, sofar + PatchesOfFixups(fixups[..k], addr))
        {
          FixupStep(artifact, sofar, fixups, addr, k);
          code := Head(code, 2 + fixups[k].start * 2)
                + Tail(addr, 2)
                + Tail(code, 2 + (fixups[k].start + fixups[k].length) * 2);
        }
        assert fixups[..|fixups|] == fixups;
      }
      assert libs[..|libs|] == libs;
      FileStep(files, addresses, i);
    }
    assert files[..|files|] == files;
  }

  lemma NoPatches(artifact: string, addresses: map<string, string>)
    ensures Link(artifact, []) == artifact && Patches([], addresses) == [] && PatchesOfLibraries([], addresses) == []
  {
  }

  lemma NoFixups(addr: string)
    ensures PatchesOfFixups([], addr) == []
  {
  }

  lemma FileStep(files: seq<FileRefs>, addresses: map<string, string>, i: nat)
    requires i < |files|
    ensures Patches(files[..i + 1], addresses)
         == Patches(files[..i], addresses) + PatchesOfLibraries(files[i].libraries, addresses)
  {
    assert files[..i + 1][..i] == files[..i];
  }

  lemma LibraryStep(before: seq<Patch>, libs: seq<LibraryRefs>, addresses: map<string, string>, j: nat)
    requires j < |libs|
    ensures before + PatchesOfLibraries(libs[..j + 1], addresses)
         == before + PatchesOfLibraries(libs[..j], addresses)
          + if libs[j].name in addresses then PatchesOfFixups(libs[j].fixups, addresses[libs[j].name]) else []
  {
    assert libs[..j + 1][..j] == libs[..j];
  }

  lemma FixupStep(artifact: string, sofar: seq<Patch>, fixups: seq<Fixup>, addr: string, k: nat)
    requires k < |fixups|
    ensures Link(artifact, sofar + PatchesOfFixups(fixups[..k + 1], addr))
         == Splice(Link(artifact, sofar + PatchesOfFixups(fixups[..k], addr)), Patch(fixups[k], addr))
  {
    var ps := sofar + PatchesOfFixups(fixups[..k + 1], addr);
    assert ps[..|ps| - 1] == sofar + PatchesOfFixups(fixups[..k], addr);
  }

  // ---- Pure overwrite ----

  /** The fixup lies inside the code and the address has its length. */
  predicate Fits(p: Patch, size: nat) {
    End(p.fixup) <= size && |p.address| == 2 + 2 * p.fixup.length
  }

  predicate Covers(p: Patch, i: int) { Begin(p.fixup) <= i < End(p.fixup) }

  /** The character a patch puts at a position it covers: the address without its 0x. */
  function At(p: Patch, i: int): char
    requires Covers(p, i) && |p.address| == 2 + 2 * p.fixup.length
  {
    p.address[2 + (i - Begin(p.fixup))]
  }

  /** Splicing a patch inside the code keeps its length exactly when the address, without
      its 0x, has the length of the fixup. */
  lemma SpliceKeepsLengthExactly(code: string, p: Patch)
    requires End(p.fixup) <= |code|
    ensures |Splice(code, p)| == |code| <==> |Tail(p.address, 2)| == 2 * p.fixup.length
  {
  }

  lemma SpliceOverwrites(code: string, p: Patch)
    requires Fits(p, |code|)
    ensures |Splice(code, p)| == |code|
    ensures forall i :: 0 <= i < |code| ==>
              Splice(code, p)[i] == if Covers(p, i) then At(p, i) else code[i]
  {
  }

  /** Two patches agree wherever they overlap; disjoint patches always do. */
  ghost predicate Agree(p: Patch, q: Patch)
    requires |p.address| == 2 + 2 * p.fixup.length && |q.address| == 2 + 2 * q.fixup.length
  {
    forall i :: Covers(p, i) && Covers(q, i) ==> At(p, i) == At(q, i)
  }

  /** Every patch fits, and every two agree. */
  ghost predicate Consistent(ps: seq<Patch>, size: nat) {
    && (forall p :: p in ps ==> Fits(p, size))
    && (forall p, q :: p in ps && q in ps && Fits(p, size) && Fits(q, size) ==> Agree(p, q))
  }

  /** Linking overwrites the covered characters and nothing else. */
  ghost predicate Overwritten(code: string, ps: seq<Patch>, linked: string)
  {
    && |linked| == |code|
    && (forall p, i :: p in ps && Fits(p, |code|) && Covers(p, i) ==> linked[i] == At(p, i))
    && (forall i :: 0 <= i < |code| && (forall p :: p in ps ==> !Covers(p, i)) ==> linked[i] == code[i])
  }

  lemma {:induction false} LinkOverwrites(code: string, ps: seq<Patch>)
    requires Consistent(ps, |code|)
    ensures Overwritten(code, ps, Link(code, ps))
  {
    if ps != [] {
      var front, last := ps[..|ps| - 1], ps[|ps| - 1];
      assert ps == front + [last];
      LinkOverwrites(code, front);
      var mid := Link(code, front);
      SpliceOverwrites(mid, last);
      var linked := Link(code, ps);
      forall p, i | p in ps && Fits(p, |code|) && Covers(p, i) ensures linked[i] == At(p, i) {
        assert Agree(p, last);
      }
      forall i | 0 <= i < |code| && (forall p :: p in ps ==> !Covers(p, i)) ensures linked[i] == code[i] {
        assert !Covers(last, i);
        assert forall p :: p in front ==> !Covers(p, i);
      }
    }
  }

  /** What the code becomes does not depend on the order, or the repetition, of the patches. */
  lemma OrderDoesNotMatter(code: string, ps: seq<Patch>, qs: seq<Patch>)
    requires Consistent(ps, |code|)
    requires forall p :: p in ps <==> p in qs
    ensures Link(code, ps) == Link(code, qs)
  {
    LinkOverwrites(code, ps);
    LinkOverwrites(code, qs);
    var a, b := Link(code, ps), Link(code, qs);
    forall i | 0 <= i < |code| ensures a[i] == b[i] {
      if p :| p in ps && Covers(p, i) {
        assert p in qs;
      } else {
        assert forall p :: p in qs ==> !Covers(p, i);
      }
    }
  }

  /** For two patches agreement is not only enough but needed. */
  lemma SwapExactlyIfAgree(code: string, p: Patch, q: Patch)
    requires Fits(p, |code|) && Fits(q, |code|)
    ensures Splice(Splice(code, p), q) == Splice(Splice(code, q), p) <==> Agree(p, q)
  {
    SpliceOverwrites(code, p);
    SpliceOverwrites(code, q);
    SpliceOverwrites(Splice(code, p), q);
    SpliceOverwrites(Splice(code, q), p);
    var pq, qp := Splice(Splice(code, p), q), Splice(Splice(code, q), p);
    if Agree(p, q) {
      assert pq == qp;
    } else {
      var i :| Covers(p, i) && Covers(q, i) && At(p, i) != At(q, i);
      assert pq[i] != qp[i];
    }
  }

  ghost predicate Disjoint(p: Patch, q: Patch) {
    End(p.fixup) <= Begin(q.fixup) || End(q.fixup) <= Begin(p.fixup)
  }

  lemma DisjointAgree(p: Patch, q: Patch)
    requires |p.address| == 2 + 2 * p.fixup.length && |q.address| == 2 + 2 * q.fixup.length
    requires Disjoint(p, q) || p == q
    ensures Agree(p, q)
  {
  }

  // ---- Which patches there are ----

  predicate FromLibrary(lib: LibraryRefs, addresses: map<string, string>, p: Patch) {
    lib.name in addresses && p.address == addresses[lib.name] && p.fixup in lib.fixups
  }

  predicate FromLibraries(libs: seq<LibraryRefs>, addresses: map<string, string>, p: Patch) {
    exists j :: 0 <= j < |libs| && FromLibrary(libs[j], addresses, p)
  }

  predicate FromFiles(files: seq<FileRefs>, addresses: map<string, string>, p: Patch) {
    exists i :: 0 <= i < |files| && FromLibraries(files[i].libraries, addresses, p)
  }

  /** The patches are exactly the fixups of the libraries that have an address. */
  lemma {:induction false} PatchOrigins(files: seq<FileRefs>, addresses: map<string, string>, p: Patch)
    ensures p in Patches(files, addresses) <==> FromFiles(files, addresses, p)
  {
    if files != [] {
      var front, last := files[..|files| - 1], files[|files| - 1];
      PatchOrigins(front, addresses, p);
      LibraryOrigins(last.libraries, addresses, p);
      hide FromLibraries;
      assert files == front + [last];
    }
  }

  lemma {:induction false} LibraryOrigins(libs: seq<LibraryRefs>, addresses: map<string, string>, p: Patch)
    ensures p in PatchesOfLibraries(libs, addresses) <==> FromLibraries(libs, addresses, p)
  {
    if libs != [] {
      var front, last := libs[..|libs| - 1], libs[|libs| - 1];
      LibraryOrigins(front, addresses, p);
      if last.name in addresses {
        FixupOrigins(last.fixups, addresses[last.name], p);
      }
      hide FromLibrary;
      assert libs == front + [last];
      FromLibraryUnset(last, addresses, p);
    }
  }

  lemma FromLibraryUnset(lib: LibraryRefs, addresses: map<string, string>, p: Patch)
    ensures FromLibrary(lib, addresses, p) <==>
              lib.name in addresses && p.address == addresses[lib.name] && p.fixup in lib.fixups
  {
  }

  lemma FixupOrigins(fixups: seq<Fixup>, address: string, p: Patch)
    ensures p in PatchesOfFixups(fixups, address) <==> p.address == address && p.fixup in fixups
  {
    if p.address == address && p.fixup in fixups {
      var i :| 0 <= i < |fixups| && fixups[i] == p.fixup;
      assert PatchesOfFixups(fixups, address)[i] == p;
    }
  }

  /** Linking an artifact whose supplied fixups fit and agree: every fixup of a supplied
      library holds its address without the 0x, and every other character, the placeholders
      of libraries without an address included, is as before. */
  lemma LinkedArtifact(artifact: string, files: seq<FileRefs>, addresses: map<string, string>)
    requires Consistent(Patches(files, addresses), |artifact|)
    ensures var linked := Link(artifact, Patches(files, addresses));
            && |linked| == |artifact|
            && (forall p, i :: FromFiles(files, addresses, p) && Fits(p, |artifact|) && Covers(p, i) ==>
                  linked[i] == At(p, i))
            && (forall i :: 0 <= i < |artifact| && (forall p :: FromFiles(files, addresses, p) ==> !Covers(p, i)) ==>
                  linked[i] == artifact[i])
  {
    hide FromFiles, Patches;
    var ps := Patches(files, addresses);
    LinkOverwrites(artifact, ps);
    forall p ensures p in ps <==> FromFiles(files, addresses, p) {
      PatchOrigins(files, addresses, p);
    }
  }

  /** The fixups of supplied libraries lie inside the code, have the length of their addresses,
      and are pairwise disjoint. */
  ghost predicate DisjointFixups(files: seq<FileRefs>, addresses: map<string, string>, size: nat) {
    && (forall p :: FromFiles(files, addresses, p) ==> Fits(p, size))
    && (forall p, q :: FromFiles(files, addresses, p) && FromFiles(files, addresses, q) && p != q ==> Disjoint(p, q))
  }

  /** Such an artifact is consistent, so linking overwrites its supplied fixups and nothing
      else, in whatever order its files, libraries and fixups come. */
  lemma DisjointArtifact(artifact: string, files: seq<FileRefs>, addresses: map<string, string>)
    requires DisjointFixups(files, addresses, |artifact|)
    ensures Consistent(Patches(files, addresses), |artifact|)
    ensures Overwritten(artifact, Patches(files, addresses), Link(artifact, Patches(files, addresses)))
    ensures forall others :: (forall p :: FromFiles(files, addresses, p) <==> FromFiles(others, addresses, p)) ==>
              Link(artifact, Patches(others, addresses)) == Link(artifact, Patches(files, addresses))
  {
    hide FromFiles, Patches, Overwritten, Link;
    var ps := Patches(files, addresses);
    forall p ensures p in ps <==> FromFiles(files, addresses, p) {
      PatchOrigins(files, addresses, p);
    }
    forall p, q | p in ps && q in ps && Fits(p, |artifact|) && Fits(q, |artifact|) ensures Agree(p, q) {
      DisjointAgree(p, q);
    }
    LinkOverwrites(artifact, ps);
    forall others | forall p :: FromFiles(files, addresses, p) <==> FromFiles(others, addresses, p)
      ensures Link(artifact, Patches(others, addresses)) == Link(artifact, ps)
    {
      forall p ensures p in Patches(others, addresses) <==> FromFiles(others, addresses, p) {
        PatchOrigins(others, addresses, p);
      }
      OrderDoesNotMatter(artifact, ps, Patches(others, addresses));
    }
  }

  /** In characters: a supplied fixup of bytes start to start + length reads, after the code's own
      0x and at two characters a byte, as its address without 0x. */
  lemma FixupReadsAsAddress(artifact: string, files: seq<FileRefs>, addresses: map<string, string>, i: nat, j: nat, k: nat)
    requires Consistent(Patches(files, addresses), |artifact|)
    requires i < |files| && j < |files[i].libraries| && k < |files[i].libraries[j].fixups|
    requires files[i].libraries[j].name in addresses
    ensures var linked := Link(artifact, Patches(files, addresses));
            var library := files[i].libraries[j];
            var f := library.fixups[k];
            && 2 + 2 * f.start + 2 * f.length <= |linked| && |addresses[library.name]| >= 2
            && linked[2 + 2 * f.start..2 + 2 * f.start + 2 * f.length] == addresses[library.name][2..]
  {
    hide Patches, Link;
    var library := files[i].libraries[j];
    var p := Patch(library.fixups[k], addresses[library.name]);
    assert FromLibrary(library, addresses, p);
    assert FromLibraries(files[i].libraries, addresses, p);
    assert FromFiles(files, addresses, p);
    PatchOrigins(files, addresses, p);
    LinkedArtifact(artifact, files, addresses);
    var linked := Link(artifact, Patches(files, addresses));
    var from := Begin(p.fixup);
    assert Fits(p, |artifact|);
    var written, bare := linked[from..End(p.fixup)], p.address[2..];
    forall c | 0 <= c < |written| ensures written[c] == bare[c] {
      assert Covers(p, from + c) && At(p, from + c) == p.address[2 + c];
    }
  }
}
