// The panel store: write_atomic of crates/guardian/src/fs.rs and the
// transactional update of src/store.rs, with a stop possible at every step.
module Stores {
  import opened Options

  type Bytes = seq<bv8>

  /** A name in the data directory: a document, or a numbered temporary file. */
  datatype FileName = Document(name: string) | Temporary(counter: nat)

  type Files = map<FileName, Bytes>

  const PANEL := Document("panel.json")

  // What a reader of documents can see.
  ghost function Docs(files: Files): Files {
    map k | k in files && k.Document? :: files[k]
  }

  /** The data directory. Every primitive records the state it leaves, so the
      history holds each state in which the process can stop. */
  class DataDir {
    var files: Files
    var counter: nat
    // Whether a file operation can fail.
    const faulty: bool
    // Whether a removal is among those that can.
    const removalsFail: bool
    ghost var history: seq<Files>

    ghost predicate Valid()
      reads this
    {
      history != [] && history[|history| - 1] == files
    }

    constructor (initial: Files, faults: bool, removalFaults: bool)
      ensures Valid() && files == initial && history == [initial] && faulty == faults && removalsFail == removalFaults
    {
      files, counter, history, faulty, removalsFail := initial, 0, [initial], faults, removalFaults;
    }

    method Fault() returns (failed: bool)
      ensures failed ==> faulty
    {
      failed := *;
      failed := failed && faulty;
    }

    // Create, write, rename and unlink all end in one of these.
    method Become(next: Files)
      requires Valid()
      modifies `files, `history
      ensures Valid() && files == next && history == old(history) + [next]
    {
      files := next;
      history := history + [next];
    }

    /* The loop that looks for an unused temporary name. */
    method CreateTemporary() returns (temporary: Option<FileName>)
      requires Valid()
      modifies this
      ensures Valid() && Docs(files) == Docs(old(files))
      ensures SameDocs(old(history), history, Docs(old(files)))
      ensures temporary.None? ==> files == old(files)
      ensures temporary.Some? ==> temporary.value.Temporary? && temporary.value !in old(files)
                                  && files == old(files)[temporary.value := []]
      ensures !faulty ==> temporary.Some?
    {
      ghost var before := history;
      while true
        invariant Valid() && files == old(files) && history == before
        decreases set k | k in files && k.Temporary? && counter <= k.counter
      {
        var name := Temporary(counter);
        ghost var ahead := set k | k in files && k.Temporary? && counter <= k.counter;
        counter := counter + 1;
        if name in files {
          assert name in ahead;
          continue;
        }
        var failed := Fault();
        if failed {
          return None;
        }
        Become(files[name := []]);
        assert Docs(files) == Docs(old(files));
        return Some(name);
      }
    }

    /** write_atomic: whenever the process stops, every document is either as it
        was or, for the written one, entirely new; and the reported outcome is
        the one the directory shows. */
    method WriteAtomic(document: FileName, contents: Bytes) returns (ok: bool)
      requires Valid() && document.Document?
      modifies this
      ensures Valid()
      ensures ok ==> files == old(files)[document := contents]
      ensures ok ==> Docs(files) == Docs(old(files))[document := contents]
      ensures !ok ==> Docs(files) == Docs(old(files))
      ensures !ok && !removalsFail ==> files == old(files)
      ensures !faulty ==> ok
      ensures old(history) <= history
      ensures forall i | |old(history)| <= i < |history| ::
                || Docs(history[i]) == Docs(old(files))
                || (ok && Docs(history[i]) == Docs(old(files))[document := contents])
    {
      var created := CreateTemporary();
      if created.None? {
        return false;
      }
      var temporary := created.value;
      // restricting the permissions can fail
      var failed := Fault();
      if failed {
        Discard(temporary);
        return false;
      }
      // a write can stop after any prefix, and syncing can fail after all of it
      var n := |contents|;
      if faulty {
        n :| 0 <= n <= |contents|;
      }
      Become(files[temporary := contents[..n]]);
      assert Docs(files) == Docs(old(files));
      failed := Fault();
      if n < |contents| || failed {
        Discard(temporary);
        return false;
      }
      assert contents[..|contents|] == contents;
      failed := Fault();
      if failed {
        Discard(temporary);
        return false;
      }
      // rename(2): the name changes hands in one step
      ghost var before := files;
      Become((files - {temporary})[document := files[temporary]]);
      assert Docs(files) == Docs(before)[document := contents];
      assert files == old(files)[document := contents];
      ok := true;
    }

    // `let _ = remove`: the temporary file may stay behind.
    method Discard(temporary: FileName)
      requires Valid() && temporary.Temporary?
      modifies this
      ensures Valid() && Docs(files) == Docs(old(files))
      ensures SameDocs(old(history), history, Docs(old(files)))
      ensures !removalsFail ==> files == old(files) - {temporary}
    {
      var failed := Fault();
      if !failed || !removalsFail {
        Become(files - {temporary});
        assert Docs(files) == Docs(old(files));
      }
    }
  }

  ghost predicate SameDocs(before: seq<Files>, after: seq<Files>, docs: Files) {
    before <= after && forall i | |before| <= i < |after| :: Docs(after[i]) == docs
  }

  /* ----- the store ----- */

  // A transaction: it rejects, or returns the next document.
  type Transaction<!D> = D -> Option<D>

  /** What remains of a run in lock order: the committed transactions, folded. */
  ghost function Fold<D>(initial: D, transactions: seq<Transaction<D>>, committed: seq<bool>): D
    requires |committed| == |transactions|
  {
    if transactions == [] then
      initial
    else
      var k := |transactions| - 1;
      var before := Fold(initial, transactions[..k], committed[..k]);
      if committed[k] && transactions[k](before).Some? then transactions[k](before).value else before
  }

  class Store<D(!new)> {
    const dir: DataDir
    const initial: D
    const encode: D -> Bytes
    const decode: Bytes -> D
    var memory: D

    // What `Store::load` would read from a directory.
    ghost function Loaded(files: Files): D {
      if PANEL in files then decode(files[PANEL]) else initial
    }

    // Memory is what a load would read, and the encoding loses nothing.
    ghost predicate Valid()
      reads this, dir
    {
      && dir.Valid()
      && (forall d :: decode(encode(d)) == d)
      && Loaded(dir.files) == memory
    }

    // Load panel.json, starting empty if there is none.
    constructor (dir: DataDir, initial: D, encode: D -> Bytes, decode: Bytes -> D)
      requires dir.Valid() && (forall d :: decode(encode(d)) == d)
      ensures Valid() && this.dir == dir && this.initial == initial && this.encode == encode && this.decode == decode
    {
      this.dir, this.initial, this.encode, this.decode := dir, initial, encode, decode;
      memory := if PANEL in dir.files then decode(dir.files[PANEL]) else initial;
    }

    /** try_update: a rejected closure or a failed write changes neither memory
        nor what a later load reads; a committed one changes both; and a stop at
        any moment in between leaves the old document or the new one. */
    method TryUpdate(f: Transaction<D>) returns (committed: bool)
      requires Valid()
      modifies this, dir
      ensures Valid()
      ensures committed ==> f(old(memory)).Some? && memory == f(old(memory)).value
      ensures !committed ==> memory == old(memory)
      ensures !dir.faulty ==> (committed <==> f(old(memory)).Some?)
      ensures old(dir.history) <= dir.history
      ensures forall i | |old(dir.history)| <= i < |dir.history| ::
                Loaded(dir.history[i]) == old(memory) || (committed && Loaded(dir.history[i]) == memory)
    {
      var next := f(memory);
      if next.None? {
        return false;
      }
      var json := encode(next.value);
      ghost var before := dir.files;
      committed := dir.WriteAtomic(PANEL, json);
      forall files: Files, other: Files | Docs(files) == Docs(other)
        ensures Loaded(files) == Loaded(other)
      {
        SamePanel(files, other);
      }
      forall files: Files | Docs(files) == Docs(before)[PANEL := json]
        ensures Loaded(files) == next.value
      {
        SamePanel(files, before[PANEL := json]);
      }
      if committed {
        memory := next.value;
      }
    }

    /** Transactions in lock order: memory ends as the fold of the committed
        ones, and a stop at any moment leaves the fold of some prefix. */
    method RunInLockOrder(transactions: seq<Transaction<D>>) returns (committed: seq<bool>)
      requires Valid()
      modifies this, dir
      ensures Valid() && |committed| == |transactions|
      ensures memory == Fold(old(memory), transactions, committed)
      ensures forall k | 0 <= k < |transactions| ::
                Justified(old(memory), transactions, committed, k, dir.faulty)
      ensures old(dir.history) <= dir.history
      ensures forall i | |old(dir.history)| <= i < |dir.history| ::
                IsPrefixFold(Loaded(dir.history[i]), old(memory), transactions, committed)
    {
      committed := [];
      assert transactions[..0] == [];
      while |committed| < |transactions|
        invariant Valid() && |committed| <= |transactions|
        invariant memory == Fold(old(memory), transactions[..|committed|], committed)
        invariant forall k | 0 <= k < |committed| :: Justified(old(memory), transactions, committed, k, dir.faulty)
        invariant old(dir.history) <= dir.history
        invariant forall i | |old(dir.history)| <= i < |dir.history| ::
                    IsPrefixFold(Loaded(dir.history[i]), old(memory), transactions, committed)
      {
        ghost var before, past, found := committed, dir.history, memory;
        var one := TryUpdate(transactions[|committed|]);
        committed := committed + [one];
        FoldOneMore(old(memory), transactions, before, one);
        FoldIsPrefixFold(old(memory), transactions, committed);
        FoldIsPrefixFold(old(memory), transactions, before);
        PrefixFoldStays(found, old(memory), transactions, before, one);
        forall i | |old(dir.history)| <= i < |dir.history|
          ensures IsPrefixFold(Loaded(dir.history[i]), old(memory), transactions, committed)
        {
          if i < |past| {
            assert dir.history[i] == past[i];
            PrefixFoldStays(Loaded(past[i]), old(memory), transactions, before, one);
          }
        }
        forall k | 0 <= k < |committed|
          ensures Justified(old(memory), transactions, committed, k, dir.faulty)
        {
          JustifiedStays(old(memory), transactions, before, one, k, dir.faulty);
        }
      }
      assert transactions[..|transactions|] == transactions;
    }
  }

  // The document after some prefix of the transactions.
  ghost predicate IsPrefixFold<D>(d: D, initial: D, transactions: seq<Transaction<D>>, committed: seq<bool>)
    requires |committed| <= |transactions|
  {
    exists k :: 0 <= k <= |committed| && d == Fold(initial, transactions[..k], committed[..k])
  }

  // A transaction was committed on the state it found only if it accepted it,
  // and, when writes do not fail, rejected only if it did not.
  ghost predicate Justified<D>(initial: D, transactions: seq<Transaction<D>>, committed: seq<bool>, k: nat,
                               faulty: bool)
    requires k < |committed| <= |transactions|
  {
    var accepted := transactions[k](Fold(initial, transactions[..k], committed[..k])).Some?;
    (committed[k] ==> accepted) && (!faulty ==> (committed[k] <==> accepted))
  }

  lemma JustifiedStays<D>(initial: D, transactions: seq<Transaction<D>>, committed: seq<bool>, one: bool,
                          k: nat, faulty: bool)
    requires |committed| < |transactions| && k <= |committed|
    requires k < |committed| ==> Justified(initial, transactions, committed, k, faulty)
    requires k == |committed| ==>
               var accepted := transactions[k](Fold(initial, transactions[..k], committed)).Some?;
               (one ==> accepted) && (!faulty ==> (one <==> accepted))
    ensures Justified(initial, transactions, committed + [one], k, faulty)
  {
    assert (committed + [one])[..k] == committed[..k];
    assert committed[..|committed|] == committed;
  }

  lemma PrefixFoldStays<D>(d: D, initial: D, transactions: seq<Transaction<D>>, committed: seq<bool>, one: bool)
    requires |committed| < |transactions| && IsPrefixFold(d, initial, transactions, committed)
    ensures IsPrefixFold(d, initial, transactions, committed + [one])
  {
    var k :| 0 <= k <= |committed| && d == Fold(initial, transactions[..k], committed[..k]);
    assert (committed + [one])[..k] == committed[..k];
  }

  lemma FoldOneMore<D>(initial: D, transactions: seq<Transaction<D>>, committed: seq<bool>, one: bool)
    requires |committed| < |transactions|
    ensures var k := |committed|;
            var before := Fold(initial, transactions[..k], committed);
            Fold(initial, transactions[..k + 1], committed + [one])
            == (if one && transactions[k](before).Some? then transactions[k](before).value else before)
  {
    var k, some, more := |committed|, transactions[..|committed| + 1], committed + [one];
    assert some[..k] == transactions[..k] && some[k] == transactions[k];
    assert more[..k] == committed && more[k] == one;
  }

  lemma FoldIsPrefixFold<D>(initial: D, transactions: seq<Transaction<D>>, committed: seq<bool>)
    requires |committed| <= |transactions|
    ensures IsPrefixFold(Fold(initial, transactions[..|committed|], committed), initial, transactions, committed)
  {
    assert committed[..|committed|] == committed;
  }

  lemma SamePanel(files: Files, other: Files)
    requires Docs(files) == Docs(other)
    ensures PANEL in files <==> PANEL in other
    ensures PANEL in files ==> files[PANEL] == other[PANEL]
  {
    assert PANEL in files <==> PANEL in Docs(files);
    assert PANEL in other <==> PANEL in Docs(other);
  }
}
