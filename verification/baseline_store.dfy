/**
 Filling the per-MSOA baseline records. Every MSOA has one record per direction: a table whose key
 column lists the MSOAs at the other end of the trip (`MSOA_work` for a home, `MSOA_home` for a
 workplace). For every input type and mode the scripts add the column `'{input}_{mode}'` to every
 record, read from the QUANT edge list in which the origin is the workplace and the destination the
 home.
 */
module BaselineStore {
  import opened Wrappers
  import opened Missing
  import opened Seqs
  import opened RunConfig
  import opened OdMatrix

  /** A stored record: the key column and the value columns by name. */
  datatype Record = Record(keys: seq<string>, columns: map<string, seq<Value>>)

  /**
   The column filled into the record of `msoa`. For home-to-work the record belongs to a home, the
   rows with that home as destination are selected and left-merged on their origin; for
   work-to-home it belongs to a workplace, the rows with that workplace as origin are selected and
   left-merged on their destination. An MSOA the input never lists gets an all-missing column.
   */
  function DirectionalColumn(keys: seq<string>, edges: seq<Edge>, msoa: string, d: Direction): (col: seq<Value>)
    ensures |col| == |keys|
    ensures d == HomeToWork ==> forall i :: 0 <= i < |keys| ==> col[i] == Lookup(edges, keys[i], msoa)
    ensures d == WorkToHome ==> forall i :: 0 <= i < |keys| ==> col[i] == Lookup(edges, msoa, keys[i])
  {
    match d
    case HomeToWork =>
      var rows := Keep(edges, HasDestination(msoa));
      forall i | 0 <= i < |keys| ensures FirstValue(rows, EdgeOrigin, keys[i]) == Lookup(edges, keys[i], msoa) {
        DestinationRowsLookup(edges, keys[i], msoa);
      }
      if rows != [] then LeftMerge(keys, rows, EdgeOrigin)
      else
        forall i | 0 <= i < |keys| ensures Lookup(edges, keys[i], msoa) == None {
          KeepAbsent(edges, HasDestination(msoa));
        }
        AllMissing(|keys|)
    case WorkToHome =>
      OriginColumn(keys, edges, msoa)
  }

  /**
   One pass of the inner loop: the column `valueName` of the record of `msoa` is (re)assigned, the
   key column and every other column are left as they were.
   */
  function Fill(r: Record, edges: seq<Edge>, msoa: string, valueName: string, d: Direction): (t: Record)
    ensures t.keys == r.keys
    ensures t.columns.Keys == r.columns.Keys + {valueName}
    ensures forall c :: c in r.columns && c != valueName ==> t.columns[c] == r.columns[c]
    ensures |t.columns[valueName]| == |r.keys|
    ensures d == HomeToWork ==> forall i :: 0 <= i < |r.keys| ==>
      t.columns[valueName][i] == Lookup(edges, r.keys[i], msoa)
    ensures d == WorkToHome ==> forall i :: 0 <= i < |r.keys| ==>
      t.columns[valueName][i] == Lookup(edges, msoa, r.keys[i])
  {
    Record(r.keys, r.columns[valueName := DirectionalColumn(r.keys, edges, msoa, d)])
  }

  /** Filling a column a second time changes nothing: re-running the script is harmless. */
  lemma FillIdempotent(r: Record, edges: seq<Edge>, msoa: string, valueName: string, d: Direction)
    ensures Fill(Fill(r, edges, msoa, valueName, d), edges, msoa, valueName, d) == Fill(r, edges, msoa, valueName, d)
  {
    var once := Fill(r, edges, msoa, valueName, d);
    var twice := Fill(once, edges, msoa, valueName, d);
    assert twice.columns == once.columns;
  }

  /** Columns of different inputs or modes are filled independently: their order does not matter. */
  lemma FillCommutes(r: Record, e1: seq<Edge>, n1: string, e2: seq<Edge>, n2: string, msoa: string, d: Direction)
    requires n1 != n2
    ensures Fill(Fill(r, e1, msoa, n1, d), e2, msoa, n2, d) == Fill(Fill(r, e2, msoa, n2, d), e1, msoa, n1, d)
  {
    var a := Fill(Fill(r, e1, msoa, n1, d), e2, msoa, n2, d);
    var b := Fill(Fill(r, e2, msoa, n2, d), e1, msoa, n1, d);
    assert a.columns == b.columns;
  }

  /**
   The loop `for MSOA in df_MSOA_unique_values['MSOA']`: the record of every listed MSOA is loaded,
   filled and stored back under the same key. Every listed MSOA has a record (the files were
   created for all of them beforehand); records of unlisted MSOAs are not touched.
   */
  method FillAll(store: map<string, Record>, msoas: seq<string>, edges: seq<Edge>, valueName: string, d: Direction)
    returns (out: map<string, Record>)
    requires forall k :: 0 <= k < |msoas| ==> msoas[k] in store
    ensures out.Keys == store.Keys
    ensures forall m :: m in msoas ==> out[m] == Fill(store[m], edges, m, valueName, d)
    ensures forall m :: m in store && m !in msoas ==> out[m] == store[m]
  {
    out := store;
    var j := 0;
    while j < |msoas|
      invariant 0 <= j <= |msoas|
      invariant FilledUpTo(out, store, msoas[..j], edges, valueName, d)
    {
      FillStep(out, store, msoas[..j], msoas[j], edges, valueName, d);
      assert msoas[..j + 1] == msoas[..j] + [msoas[j]];
      out := out[msoas[j] := Fill(out[msoas[j]], edges, msoas[j], valueName, d)];
      j := j + 1;
    }
    assert msoas[..j] == msoas;
  }

  /** `out` is `store` with the records of the MSOAs in `done` filled. */
  predicate FilledUpTo(out: map<string, Record>, store: map<string, Record>, done: seq<string>,
                       edges: seq<Edge>, valueName: string, d: Direction) {
    && out.Keys == store.Keys
    && forall m :: m in store ==>
         out[m] == if m in done then Fill(store[m], edges, m, valueName, d) else store[m]
  }

  /** Filling one more listed MSOA extends the filled set by that MSOA. */
  lemma FillStep(out: map<string, Record>, store: map<string, Record>, done: seq<string>, m: string,
                 edges: seq<Edge>, valueName: string, d: Direction)
    requires FilledUpTo(out, store, done, edges, valueName, d) && m in store
    ensures FilledUpTo(out[m := Fill(out[m], edges, m, valueName, d)], store, done + [m], edges, valueName, d)
  {
    if m in done {
      FillIdempotent(store[m], edges, m, valueName, d);
    }
    var out' := out[m := Fill(out[m], edges, m, valueName, d)];
    forall x | x in store
      ensures out'[x] == if x in done + [m] then Fill(store[x], edges, x, valueName, d) else store[x]
    {
      assert x in done + [m] <==> x in done || x == m;
    }
  }
}
