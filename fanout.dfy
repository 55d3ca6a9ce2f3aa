/**
 * The row-selection rules of the admin add-product fan-out (app.py:224-262):
 * which zipped form entries and which uploads become child rows of the new
 * product, and what those rows hold. Each `*Rows` function is the list of
 * rows the corresponding `for` loop inserts, in loop order.
 */
module FanOut {
  import opened Seqs
  import opened Schema

  /** app.py:229: a specification pair is inserted when name and value are both non-empty. */
  predicate SpecKept(p: (string, string))
  {
    p.0 != "" && p.1 != ""
  }

  /** app.py:243: a packaging entry is inserted when type and weight are both non-empty. */
  predicate PackagingKept(q: (string, string, string, string))
  {
    q.0 != "" && q.1 != ""
  }

  /** app.py:254: an upload slot is used when it carries a non-empty filename. */
  predicate HasFilename(u: Upload)
  {
    u.filename != ""
  }

  /** The specification rows inserted for product `pid` from the zipped (name, value) pairs. */
  function SpecRows(pid: int, pairs: seq<(string, string)>): (r: seq<Specification>)
    ensures |r| <= |pairs|
    ensures forall s :: s in r ==> s.productId == pid && s.name != "" && s.value != ""
  {
    if pairs == [] then []
    else
      var n := |pairs| - 1;
      SpecRows(pid, pairs[..n])
        + (if SpecKept(pairs[n]) then [Specification(pid, pairs[n].0, pairs[n].1)] else [])
  }

  /** The packaging rows inserted for product `pid` from the zipped (type, weight, 20ft, 40ft) entries. */
  function PackagingRows(pid: int, entries: seq<(string, string, string, string)>): (r: seq<Packaging>)
    ensures |r| <= |entries|
    ensures forall q :: q in r ==> q.productId == pid && q.packagingType != "" && q.weight != ""
  {
    if entries == [] then []
    else
      var n := |entries| - 1;
      var e := entries[n];
      PackagingRows(pid, entries[..n])
        + (if PackagingKept(e) then [Packaging(pid, e.0, e.1, e.2, e.3)] else [])
  }

  /** The image rows inserted for product `pid`; `sanitize` stands for `secure_filename`. */
  function ImageRows(pid: int, files: seq<Upload>, sanitize: string -> string): (r: seq<Image>)
    ensures |r| <= |files|
    ensures forall m :: m in r ==> m.productId == pid
  {
    if files == [] then []
    else
      var n := |files| - 1;
      ImageRows(pid, files[..n], sanitize)
        + (if HasFilename(files[n]) then [Image(pid, sanitize(files[n].filename))] else [])
  }

  /** The k-th specification row comes from the k-th kept pair. */
  lemma {:induction false} SpecRowsFollowKept(pid: int, pairs: seq<(string, string)>)
    ensures |SpecRows(pid, pairs)| == |KeptIndices(pairs, SpecKept)|
    ensures forall k :: 0 <= k < |SpecRows(pid, pairs)| ==>
      var i := KeptIndices(pairs, SpecKept)[k];
      SpecRows(pid, pairs)[k] == Specification(pid, pairs[i].0, pairs[i].1)
  {
    if pairs != [] {
      var n := |pairs| - 1;
      SpecRowsFollowKept(pid, pairs[..n]);
      assert forall j :: 0 <= j < n ==> pairs[..n][j] == pairs[j];
    }
  }

  /** The k-th packaging row comes from the k-th kept entry. */
  lemma {:induction false} PackagingRowsFollowKept(pid: int, entries: seq<(string, string, string, string)>)
    ensures |PackagingRows(pid, entries)| == |KeptIndices(entries, PackagingKept)|
    ensures forall k :: 0 <= k < |PackagingRows(pid, entries)| ==>
      var i := KeptIndices(entries, PackagingKept)[k];
      PackagingRows(pid, entries)[k]
        == Packaging(pid, entries[i].0, entries[i].1, entries[i].2, entries[i].3)
  {
    if entries != [] {
      var n := |entries| - 1;
      PackagingRowsFollowKept(pid, entries[..n]);
      assert forall j :: 0 <= j < n ==> entries[..n][j] == entries[j];
    }
  }

  /** The k-th image row comes from the k-th upload with a filename. */
  lemma {:induction false} ImageRowsFollowKept(pid: int, files: seq<Upload>, sanitize: string -> string)
    ensures |ImageRows(pid, files, sanitize)| == |KeptIndices(files, HasFilename)|
    ensures forall k :: 0 <= k < |ImageRows(pid, files, sanitize)| ==>
      var i := KeptIndices(files, HasFilename)[k];
      ImageRows(pid, files, sanitize)[k] == Image(pid, sanitize(files[i].filename))
  {
    if files != [] {
      var n := |files| - 1;
      ImageRowsFollowKept(pid, files[..n], sanitize);
      assert forall j :: 0 <= j < n ==> files[..n][j] == files[j];
    }
  }

  /**
   * Specification selection, stated on the two submitted lists: the rows are
   * the pairs (names[i], values[i]) for exactly those positions i below the
   * shorter list's length where both are non-empty, in increasing order of i.
   */
  lemma {:induction false} SpecificationSelection(pid: int, names: seq<string>, values: seq<string>)
    ensures var idx := KeptIndices(Zip(names, values), SpecKept);
      var rows := SpecRows(pid, Zip(names, values));
      && |rows| == |idx|
      && (forall k :: 0 <= k < |idx| ==>
            idx[k] < |names| && idx[k] < |values|
            && rows[k] == Specification(pid, names[idx[k]], values[idx[k]]))
      && (forall k, l :: 0 <= k < l < |idx| ==> idx[k] < idx[l])
      && (forall i :: 0 <= i < |names| && 0 <= i < |values| ==>
            (i in idx <==> names[i] != "" && values[i] != ""))
  {
    SpecRowsFollowKept(pid, Zip(names, values));
  }

  /**
   * Packaging selection, stated on the four submitted lists: the rows are the
   * entries at exactly those positions i below the shortest list's length
   * where type and weight are non-empty, in order, with both container values
   * copied as given (empty ones included).
   */
  lemma {:induction false} PackagingSelection(pid: int, types: seq<string>, weights: seq<string>,
                                             c20: seq<string>, c40: seq<string>)
    ensures var entries := Zip4(types, weights, c20, c40);
      var idx := KeptIndices(entries, PackagingKept);
      var rows := PackagingRows(pid, entries);
      && |rows| == |idx|
      && (forall k :: 0 <= k < |idx| ==>
            idx[k] < |types| && idx[k] < |weights| && idx[k] < |c20| && idx[k] < |c40|
            && rows[k] == Packaging(pid, types[idx[k]], weights[idx[k]], c20[idx[k]], c40[idx[k]]))
      && (forall k, l :: 0 <= k < l < |idx| ==> idx[k] < idx[l])
      && (forall i :: 0 <= i < |types| && i < |weights| && i < |c20| && i < |c40| ==>
            (i in idx <==> types[i] != "" && weights[i] != ""))
  {
    PackagingRowsFollowKept(pid, Zip4(types, weights, c20, c40));
  }

  /**
   * Image selection: one row per upload with a non-empty filename, in upload
   * order, none for an empty slot, each naming the sanitized filename.
   */
  lemma {:induction false} ImageSelection(pid: int, files: seq<Upload>, sanitize: string -> string)
    ensures var idx := KeptIndices(files, HasFilename);
      var rows := ImageRows(pid, files, sanitize);
      && |rows| == |idx|
      && (forall k :: 0 <= k < |idx| ==>
            idx[k] < |files| && rows[k] == Image(pid, sanitize(files[idx[k]].filename)))
      && (forall k, l :: 0 <= k < l < |idx| ==> idx[k] < idx[l])
      && (forall i :: 0 <= i < |files| ==> (i in idx <==> files[i].filename != ""))
  {
    ImageRowsFollowKept(pid, files, sanitize);
  }

  /** An example: with an empty second name, only the first pair becomes a row. */
  lemma SpecificationExample(pid: int)
    ensures SpecRows(pid, Zip(["Color", ""], ["Red", "Blue"])) == [Specification(pid, "Color", "Red")]
  {
    var pairs := Zip(["Color", ""], ["Red", "Blue"]);
    assert pairs == [("Color", "Red"), ("", "Blue")];
    assert pairs[..1] == [("Color", "Red")];
  }
}
