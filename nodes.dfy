/**
 * The logic of the custom ComfyUI nodes (nodes/nodes.py) apart from their
 * tensor and image code: the option list of the selection input, the
 * counter and names under which output images are saved, and the
 * destination of a saved output file.
 */
module Nodes {
  import opened Wrappers
  import opened PyStr
  import opened PosixPath

  // ---------------------------------------------------------------------
  // SelectionInput (nodes/nodes.py:293-315)

  /** `[opt.strip() for opt in pieces if opt.strip()]` */
  function OptionsList(pieces: seq<string>): (r: seq<string>)
    ensures forall i :: 0 <= i < |r| ==> r[i] != ""
    decreases |pieces|
  {
    if pieces == [] then []
    else
      var rest := OptionsList(pieces[1..]);
      if Strip(pieces[0]) != "" then [Strip(pieces[0])] + rest else rest
  }

  /** The options of the node: the stripped, non-empty lines of `options`. */
  function Options(options: string): seq<string> {
    OptionsList(Split(options, '\n'))
  }

  /** The `AssertionError` raised when `selected` is not one of the options. */
  datatype SelectionError = NotAnOption(selected: string)

  /** `xs.index(x)`: the first position of `x`. */
  function IndexOf(xs: seq<string>, x: string): (i: nat)
    requires x in xs
    ensures i < |xs| && xs[i] == x
    ensures forall j :: 0 <= j < i ==> xs[j] != x
  {
    if xs[0] == x then 0 else 1 + IndexOf(xs[1..], x)
  }

  /** `SelectionInput.process(selected, options, start_index)` */
  function Process(selected: string, options: string, startIndex: string): Result<(string, int), SelectionError> {
    var opts := Options(options);
    if opts == [] then Ok(("", -1))
    else if selected !in opts then Err(NotAnOption(selected))
    else Ok((selected, IndexOf(opts, selected) + (if startIndex == "1" then 1 else 0)))
  }

  /** `SelectionInput.VALIDATE_INPUTS`: whether `process` raises no `AssertionError`. */
  function ValidateInputs(selected: string, options: string, startIndex: string): (r: bool)
    ensures r <==> Options(options) == [] || selected in Options(options)
  {
    Process(selected, options, startIndex).Ok?
  }

  // ---------------------------------------------------------------------
  // get_save_image_path (nodes/nodes.py:58-95)

  /** What `get_save_image_path` returns. */
  datatype SavePath = SavePath(folder: string, filename: string, counter: int, subfolder: string, prefix: string)

  /**
   * `map_filename(f)` with prefix length `n`: the number between the first
   * `n + 1` characters and the next `_` (0 when it is no integer), and those
   * first characters.
   */
  function MapFilename(n: nat, f: string): (int, string) {
    (NumberAfter(Drop(f, n + 1)), Take(f, n + 1))
  }

  /** `int(rest.split("_")[0])`, or 0 when that raises. */
  function NumberAfter(rest: string): int {
    var digits := ParseInt(Split(rest, '_')[0]);
    if digits.Some? then digits.value else 0
  }

  /** The filter of lines 84-85: the mapped prefix is `filename` followed by `_`. */
  predicate Matches(filename: string, p: string) {
    p != "" && p[..|p| - 1] == filename && p[|p| - 1] == '_'
  }

  /** The mapped entries of a listing, in order. */
  function MapAll(n: nat, names: seq<string>): (r: seq<(int, string)>)
    ensures |r| == |names| && forall i :: 0 <= i < |names| ==> r[i] == MapFilename(n, names[i])
  {
    seq(|names|, i requires 0 <= i < |names| => MapFilename(n, names[i]))
  }

  /** The mapped entries whose prefix matches, in order. */
  function Filter(filename: string, xs: seq<(int, string)>): (r: seq<(int, string)>)
    ensures forall x :: x in r <==> x in xs && Matches(filename, x.1)
    decreases |xs|
  {
    if xs == [] then []
    else
      var rest := Filter(filename, xs[1..]);
      assert forall x :: x in xs <==> x == xs[0] || x in xs[1..];
      if Matches(filename, xs[0].1) then [xs[0]] + rest else rest
  }

  /** `max(xs)[0]`, or `None` when `xs` is empty (`ValueError`). */
  function MaxFirst(xs: seq<(int, string)>): (r: Option<int>)
    ensures r.None? <==> xs == []
    ensures r.Some? ==> (forall x :: x in xs ==> x.0 <= r.value) && exists x :: x in xs && x.0 == r.value
    decreases |xs|
  {
    if xs == [] then None
    else
      var m := MaxFirst(xs[1..]);
      assert forall x :: x in xs <==> x == xs[0] || x in xs[1..];
      if m.Some? && m.value > xs[0].0 then m else Some(xs[0].0)
  }

  /** The counter over a listing with prefix length `n`: `None` is a missing folder (`FileNotFoundError`). */
  function NextCounter(n: nat, filename: string, listing: Option<seq<string>>): int {
    if listing.None? then 1
    else
      var m := MaxFirst(Filter(filename, MapAll(n, listing.value)));
      if m.None? then 1 else m.value + 1
  }

  /** `get_save_image_path` with the prefix length `n` given, over the listing of the output folder. */
  function SavePathWith(n: nat, prefix: string, outputDir: string, listing: Option<seq<string>>): SavePath {
    var subfolder := Dirname(NormPath(prefix));
    var filename := Basename(NormPath(prefix));
    SavePath(JoinPath(outputDir, subfolder), filename, NextCounter(n, filename, listing), subfolder, prefix)
  }

  /**
   * `get_save_image_path(prefix, output_dir)` as written: the prefix length
   * is that of the basename of the prefix as given, not normalised.
   */
  function GetSaveImagePathAsWritten(prefix: string, outputDir: string, listing: Option<seq<string>>): (r: SavePath)
    ensures r.filename == Basename(NormPath(prefix)) && r.subfolder == Dirname(NormPath(prefix))
    ensures r.folder == JoinPath(outputDir, r.subfolder) && r.prefix == prefix
    ensures r.counter == NextCounter(|Basename(prefix)|, r.filename, listing)
  {
    SavePathWith(|Basename(prefix)|, prefix, outputDir, listing)
  }

  /** `get_save_image_path` measuring the prefix by the normalised file name it matches against. */
  function GetSaveImagePath(prefix: string, outputDir: string, listing: Option<seq<string>>): (r: SavePath)
    ensures r.filename == Basename(NormPath(prefix)) && r.subfolder == Dirname(NormPath(prefix))
    ensures r.folder == JoinPath(outputDir, r.subfolder) && r.prefix == prefix
    ensures r.counter == NextCounter(|r.filename|, r.filename, listing)
  {
    SavePathWith(|Basename(NormPath(prefix))|, prefix, outputDir, listing)
  }

  // ---------------------------------------------------------------------
  // OutputImage.save_images (nodes/nodes.py:126-162)

  const BATCH_NUM := "%batch_num%"

  /** One entry of the `images` list `save_images` reports. */
  datatype SavedImage = SavedImage(filename: string, subfolder: string, kind: string)

  /** The name of image `b` of a batch, saved with counter `counter`. */
  function BatchFile(filename: string, b: nat, counter: int): string {
    Replace(filename, BATCH_NUM, IntToString(b)) + "_" + Format05(counter) + "_.png"
  }

  /** The name a file saved under `filename` with counter `c` has when `filename` holds no `%batch_num%`. */
  function SavedName(filename: string, c: int): string {
    filename + "_" + Format05(c) + "_.png"
  }

  /** The results for the first `k` images of a batch saved from counter `counter` on. */
  function BatchResults(filename: string, subfolder: string, counter: int, k: nat): (r: seq<SavedImage>)
    ensures |r| == k
    decreases k
  {
    if k == 0 then []
    else BatchResults(filename, subfolder, counter, k - 1) + [SavedImage(BatchFile(filename, k - 1, counter + k - 1), subfolder, "output")]
  }

  /** One more image appends its result. */
  lemma BatchResultsSnoc(filename: string, subfolder: string, counter: int, k: nat)
    ensures BatchResults(filename, subfolder, counter, k + 1)
      == BatchResults(filename, subfolder, counter, k) + [SavedImage(BatchFile(filename, k, counter + k), subfolder, "output")]
  {
  }

  /**
   * `save_images` on a batch of `count` images, over the listing of the
   * output folder: `None` is the `IndexError` of `images[0]` on an empty
   * batch; otherwise the results of the batch from the counter
   * `get_save_image_path` as written finds.
   */
  method SaveImages(count: nat, prefix: string, outputDir: string, listing: Option<seq<string>>) returns (r: Option<seq<SavedImage>>)
    ensures r.None? <==> count == 0
    ensures r.Some? ==> var sp := GetSaveImagePathAsWritten(prefix, outputDir, listing);
      r.value == BatchResults(sp.filename, sp.subfolder, sp.counter, count)
  {
    if count == 0 {
      return None;
    }
    var sp := GetSaveImagePathAsWritten(prefix, outputDir, listing);
    var results := SaveBatch(count, sp.filename, sp.subfolder, sp.counter);
    return Some(results);
  }

  /** `save_images` over the corrected `get_save_image_path`, whose counter never restarts over saved images. */
  method SaveImagesCorrected(count: nat, prefix: string, outputDir: string, listing: Option<seq<string>>) returns (r: Option<seq<SavedImage>>)
    ensures r.None? <==> count == 0
    ensures r.Some? ==> var sp := GetSaveImagePath(prefix, outputDir, listing);
      r.value == BatchResults(sp.filename, sp.subfolder, sp.counter, count)
  {
    if count == 0 {
      return None;
    }
    var sp := GetSaveImagePath(prefix, outputDir, listing);
    var results := SaveBatch(count, sp.filename, sp.subfolder, sp.counter);
    return Some(results);
  }

  /** The loop of lines 138-160: one result per image, the counter going up by one each time. */
  method SaveBatch(count: nat, filename: string, subfolder: string, start: int) returns (results: seq<SavedImage>)
    ensures results == BatchResults(filename, subfolder, start, count)
  {
    var counter := start;
    results := [];
    for b := 0 to count
      invariant counter == start + b
      invariant results == BatchResults(filename, subfolder, start, b)
    {
      var file := BatchFile(filename, b, counter);
      BatchResultsSnoc(filename, subfolder, start, b);
      results := results + [SavedImage(file, subfolder, "output")];
      counter := counter + 1;
    }
  }

  // ---------------------------------------------------------------------
  // OutputPath.save (nodes/nodes.py:44-55)

  /**
   * Where `OutputPath.save(filename, filename_prefix)` copies the file, or
   * `None` for an empty prefix, which saves nothing.
   */
  function SaveDestination(filename: string, prefix: string): (r: Option<string>)
    ensures r.None? <==> prefix == ""
  {
    if prefix == "" then None
    else
      var subfolder := Dirname(prefix);
      var dir := if subfolder != "" then subfolder else Dirname(filename);
      Some(JoinPath(dir, Basename(prefix) + Basename(filename)))
  }

  // ---------------------------------------------------------------------
  // Properties

  /** A string is an option exactly when it is a non-empty stripped line of the text. */
  lemma OptionsListMembers(pieces: seq<string>, x: string)
    ensures x in OptionsList(pieces) <==> x != "" && exists i :: 0 <= i < |pieces| && Strip(pieces[i]) == x
  {
    if x in OptionsList(pieces) {
      OptionsFromLines(pieces, x);
    }
    if x != "" && exists i :: 0 <= i < |pieces| && Strip(pieces[i]) == x {
      var i :| 0 <= i < |pieces| && Strip(pieces[i]) == x;
      LinesAreOptions(pieces, i);
    }
  }

  /** Every option is a stripped line of the text. */
  lemma {:induction false} OptionsFromLines(pieces: seq<string>, x: string)
    requires x in OptionsList(pieces)
    ensures exists i :: 0 <= i < |pieces| && Strip(pieces[i]) == x
    decreases |pieces|
  {
    if Strip(pieces[0]) != x {
      OptionsFromLines(pieces[1..], x);
      var i :| 0 <= i < |pieces[1..]| && Strip(pieces[1..][i]) == x;
      assert pieces[i + 1] == pieces[1..][i];
    }
  }

  /** Every line that is non-empty once stripped gives an option. */
  lemma {:induction false} LinesAreOptions(pieces: seq<string>, i: nat)
    requires i < |pieces| && Strip(pieces[i]) != ""
    ensures Strip(pieces[i]) in OptionsList(pieces)
    decreases |pieces|
  {
    var x := Strip(pieces[i]);
    if i > 0 {
      assert pieces[1..][i - 1] == pieces[i];
      LinesAreOptions(pieces[1..], i - 1);
      OptionsListTail(pieces, x);
    }
  }

  /** The options of the lines after the first are options of all the lines. */
  lemma OptionsListTail(pieces: seq<string>, x: string)
    requires pieces != [] && x in OptionsList(pieces[1..])
    ensures x in OptionsList(pieces)
  {
  }

  /**
   * Without options the node yields `("", -1)`; otherwise it yields the
   * selected option unchanged and the position of its first occurrence,
   * counted from 1 when `start_index` is `"1"`, and fails when it is not an
   * option.
   */
  lemma ProcessSelects(selected: string, options: string, startIndex: string)
    ensures Options(options) == [] ==> Process(selected, options, startIndex) == Ok(("", -1))
    ensures Options(options) != [] ==> (Process(selected, options, startIndex).Ok? <==> selected in Options(options))
    ensures Options(options) != [] && Process(selected, options, startIndex).Ok? ==>
      var opts := Options(options);
      var (s, index) := Process(selected, options, startIndex).value;
      var k := index - (if startIndex == "1" then 1 else 0);
      s == selected && 0 <= k < |opts| && opts[k] == selected && forall j :: 0 <= j < k ==> opts[j] != selected
  {
  }

  /** A selection with white space around it never validates against a non-empty option list. */
  lemma SpacedSelectionInvalid(selected: string, options: string, startIndex: string)
    requires Strip(selected) != selected && Options(options) != []
    ensures !ValidateInputs(selected, options, startIndex)
  {
    var pieces := Split(options, '\n');
    OptionsListMembers(pieces, selected);
    if selected in Options(options) {
      var i :| 0 <= i < |pieces| && Strip(pieces[i]) == selected;
      StripIdempotent(pieces[i]);
    }
  }

  /** A line of the text that is non-empty once stripped validates as the selection. */
  lemma LineValidates(options: string, i: nat, startIndex: string)
    requires i < |Split(options, '\n')| && Strip(Split(options, '\n')[i]) != ""
    ensures ValidateInputs(Strip(Split(options, '\n')[i]), options, startIndex)
  {
    OptionsListMembers(Split(options, '\n'), Strip(Split(options, '\n')[i]));
  }

  /** An entry that counts toward the counter with prefix length `n`. */
  predicate Counted(n: nat, filename: string, f: string) {
    Matches(filename, Take(f, n + 1))
  }

  /**
   * The counter is 1 for a missing output folder or one where nothing
   * counts; otherwise it is one more than the largest number of an entry
   * that counts.
   */
  lemma CounterIsNextNumber(n: nat, filename: string, listing: Option<seq<string>>)
    ensures listing.None? || (forall f :: f in listing.value ==> !Counted(n, filename, f)) ==> NextCounter(n, filename, listing) == 1
    ensures listing.Some? ==> forall f :: f in listing.value && Counted(n, filename, f) ==> MapFilename(n, f).0 < NextCounter(n, filename, listing)
    ensures listing.Some? && (exists f :: f in listing.value && Counted(n, filename, f)) ==>
      exists f :: f in listing.value && Counted(n, filename, f) && MapFilename(n, f).0 + 1 == NextCounter(n, filename, listing)
  {
    if listing.Some? {
      var names := listing.value;
      CountedMapped(n, filename, names);
      var m := MaxFirst(Filter(filename, MapAll(n, names)));
      if m.Some? {
        var x :| x in Filter(filename, MapAll(n, names)) && x.0 == m.value;
        MappedCounted(n, filename, names, x);
      }
    }
  }

  /** Every entry that counts is mapped into the filtered listing. */
  lemma CountedMapped(n: nat, filename: string, names: seq<string>)
    ensures forall f :: f in names && Counted(n, filename, f) ==> MapFilename(n, f) in Filter(filename, MapAll(n, names))
  {
    var xs := MapAll(n, names);
    forall f | f in names && Counted(n, filename, f) ensures MapFilename(n, f) in Filter(filename, xs) {
      var i :| 0 <= i < |names| && names[i] == f;
      assert xs[i] == MapFilename(n, f);
    }
  }

  /** Every entry of the filtered listing comes from an entry that counts. */
  lemma MappedCounted(n: nat, filename: string, names: seq<string>, x: (int, string))
    requires x in Filter(filename, MapAll(n, names))
    ensures exists f :: f in names && Counted(n, filename, f) && MapFilename(n, f) == x
  {
    var xs := MapAll(n, names);
    var i :| 0 <= i < |xs| && xs[i] == x;
    assert names[i] in names && MapFilename(n, names[i]) == x;
  }

  /** Measured by the file name itself, an entry counts exactly when it starts with the file name and `_`. */
  lemma CountedExactly(filename: string, f: string)
    ensures Counted(|filename|, filename, f) <==> StartsWith(f, filename + "_")
  {
    var n := |filename|;
    var p := Take(f, n + 1);
    if StartsWith(f, filename + "_") {
      assert p == filename + "_";
      assert p[..n] == filename;
    }
    if Counted(n, filename, f) {
      assert |p| == n + 1;
      assert f[..n + 1] == p;
      assert p == p[..n] + [p[n]];
    }
  }

  /** The counter saved in a name is read back from it. */
  lemma NumberAfterSaved(c: int)
    ensures NumberAfter(Format05(c) + "_.png") == c
  {
    var d := Format05(c);
    Format05Chars(c);
    assert d + "_.png" == d + ['_'] + ".png";
    assert '_' !in d by {
      forall i | 0 <= i < |d| ensures d[i] != '_' { }
    }
    SplitAround(d, '_', ".png");
    Format05RoundTrip(c);
  }

  /** A saved file counts under its file name, with the counter it was saved with. */
  lemma SavedNameCounted(filename: string, c: int, f: string)
    requires f == SavedName(filename, c)
    ensures Counted(|filename|, filename, f)
    ensures MapFilename(|filename|, f).0 == c
  {
    SavedNameSplits(filename, c, f);
    assert (filename + "_")[..|filename|] == filename;
    NumberAfterSaved(c);
  }

  /** A saved name is the file name and `_`, then the padded counter and `_.png`. */
  lemma SavedNameSplits(filename: string, c: int, f: string)
    requires f == SavedName(filename, c)
    ensures Take(f, |filename| + 1) == filename + "_"
    ensures Drop(f, |filename| + 1) == Format05(c) + "_.png"
  {
    assert f == (filename + "_") + (Format05(c) + "_.png");
  }

  /** The names of a batch, for a file name without `%batch_num%`, are its saved names. */
  lemma BatchFileIsSaved(filename: string, b: nat, c: int)
    requires !Contains(filename, BATCH_NUM)
    ensures BatchFile(filename, b, c) == SavedName(filename, c)
  {
    ReplaceAbsent(filename, BATCH_NUM, IntToString(b));
  }

  /** The file names of a batch of `count` images saved under `fn` from counter `c` on. */
  function BatchNames(fn: string, c: int, count: nat): (r: seq<string>)
    ensures |r| == count && forall b :: 0 <= b < count ==> r[b] == BatchFile(fn, b, c + b)
  {
    seq(count, b requires 0 <= b < count => BatchFile(fn, b, c + b))
  }

  /** Every image of a batch counts under the file name, with its own counter. */
  lemma BatchCounted(fn: string, c: int, count: nat)
    requires !Contains(fn, BATCH_NUM)
    ensures forall b :: 0 <= b < count ==> Counted(|fn|, fn, BatchNames(fn, c, count)[b]) && MapFilename(|fn|, BatchNames(fn, c, count)[b]).0 == c + b
  {
    forall b | 0 <= b < count
      ensures Counted(|fn|, fn, BatchNames(fn, c, count)[b]) && MapFilename(|fn|, BatchNames(fn, c, count)[b]).0 == c + b
    {
      BatchFileCounted(fn, b, c + b, BatchNames(fn, c, count)[b]);
    }
  }

  /**
   * After a batch of `count` images is saved, the next call continues the
   * counter exactly where the batch stopped, so no saved image is
   * overwritten (for a file name without `%batch_num%`).
   */
  lemma NextSaveContinues(prefix: string, outputDir: string, listing: Option<seq<string>>, count: nat)
    requires count >= 1
    requires !Contains(Basename(NormPath(prefix)), BATCH_NUM)
    ensures var sp := GetSaveImagePath(prefix, outputDir, listing);
      var before := if listing.Some? then listing.value else [];
      GetSaveImagePath(prefix, outputDir, Some(before + BatchNames(sp.filename, sp.counter, count))).counter == sp.counter + count
  {
    var fn := Basename(NormPath(prefix));
    NextCounterAfterBatch(fn, listing, count);
  }

  /**
   * When normalising does not change the length of the prefix's base name
   * (it does for a prefix ending in `/` or in a `.` or `..` component), the counter as
   * written is the corrected one, so it too continues after a saved batch.
   */
  lemma AsWrittenContinues(prefix: string, outputDir: string, listing: Option<seq<string>>, count: nat)
    requires count >= 1
    requires !Contains(Basename(NormPath(prefix)), BATCH_NUM)
    requires |Basename(prefix)| == |Basename(NormPath(prefix))|
    ensures var sp := GetSaveImagePathAsWritten(prefix, outputDir, listing);
      var before := if listing.Some? then listing.value else [];
      && sp == GetSaveImagePath(prefix, outputDir, listing)
      && GetSaveImagePathAsWritten(prefix, outputDir, Some(before + BatchNames(sp.filename, sp.counter, count))).counter == sp.counter + count
  {
    NextSaveContinues(prefix, outputDir, listing, count);
  }

  /** The counter after a batch saved under `fn` from the current counter on is the current one plus the batch size. */
  lemma NextCounterAfterBatch(fn: string, listing: Option<seq<string>>, count: nat)
    requires count >= 1
    requires !Contains(fn, BATCH_NUM)
    ensures var c := NextCounter(|fn|, fn, listing);
      var before := if listing.Some? then listing.value else [];
      NextCounter(|fn|, fn, Some(before + BatchNames(fn, c, count))) == c + count
  {
    var n := |fn|;
    var c := NextCounter(n, fn, listing);
    var saved := BatchNames(fn, c, count);
    var before := if listing.Some? then listing.value else [];
    CounterIsNextNumber(n, fn, listing);
    BatchCounted(fn, c, count);
    BatchBounded(fn, c, count, before);
    assert saved[count - 1] in before + saved;
    CounterFromBound(n, fn, before + saved, c + count - 1);
  }

  /** A counter attained by some entry that counts and bounding all of them is the last one used. */
  lemma CounterFromBound(n: nat, fn: string, names: seq<string>, top: int)
    requires exists f :: f in names && Counted(n, fn, f) && MapFilename(n, f).0 == top
    requires forall f :: f in names && Counted(n, fn, f) ==> MapFilename(n, f).0 <= top
    ensures NextCounter(n, fn, Some(names)) == top + 1
  {
    CounterIsNextNumber(n, fn, Some(names));
  }

  /** Entries below counter `c`, followed by a batch from `c` on, stay at or below the batch's last counter. */
  lemma BatchBounded(fn: string, c: int, count: nat, before: seq<string>)
    requires !Contains(fn, BATCH_NUM)
    requires forall f :: f in before && Counted(|fn|, fn, f) ==> MapFilename(|fn|, f).0 < c
    ensures forall f :: f in before + BatchNames(fn, c, count) && Counted(|fn|, fn, f) ==> MapFilename(|fn|, f).0 <= c + count - 1
  {
    var saved := BatchNames(fn, c, count);
    BatchCounted(fn, c, count);
    forall f | f in before + saved && Counted(|fn|, fn, f) ensures MapFilename(|fn|, f).0 <= c + count - 1 {
      if f !in before {
        var b :| 0 <= b < count && saved[b] == f;
      }
    }
  }

  /**
   * Saving a batch gives each image its own name (for a file name without
   * `%batch_num%`): the counters differ and are read back from the names.
   */
  lemma BatchNamesDistinct(filename: string, counter: int, b1: nat, b2: nat)
    requires !Contains(filename, BATCH_NUM) && b1 != b2
    ensures BatchFile(filename, b1, counter + b1) != BatchFile(filename, b2, counter + b2)
  {
    BatchFileCounted(filename, b1, counter + b1, BatchFile(filename, b1, counter + b1));
    BatchFileCounted(filename, b2, counter + b2, BatchFile(filename, b2, counter + b2));
    var n := |filename|;
    assert MapFilename(n, BatchFile(filename, b1, counter + b1)).0 != MapFilename(n, BatchFile(filename, b2, counter + b2)).0;
  }

  /** Image `b` of a batch, saved with counter `c`, counts under the file name with that counter. */
  lemma BatchFileCounted(filename: string, b: nat, c: int, f: string)
    requires !Contains(filename, BATCH_NUM) && f == BatchFile(filename, b, c)
    ensures Counted(|filename|, filename, f)
    ensures MapFilename(|filename|, f).0 == c
  {
    BatchFileIsSaved(filename, b, c);
    SavedNameCounted(filename, c, f);
  }

  /**
   * The destination keeps the file's name behind the prefix's base name, in
   * the prefix's directory when it has one and else in the file's own.
   */
  lemma SaveDestinationSplits(filename: string, prefix: string)
    requires prefix != "" && Basename(prefix) + Basename(filename) != ""
    ensures var dest := SaveDestination(filename, prefix).value;
      var dir := if Dirname(prefix) != "" then Dirname(prefix) else Dirname(filename);
      Basename(dest) == Basename(prefix) + Basename(filename)
      && (dir != "" ==> Dirname(dest) == dir)
  {
    var dir := if Dirname(prefix) != "" then Dirname(prefix) else Dirname(filename);
    var name := Basename(prefix) + Basename(filename);
    assert '/' !in name;
    JoinBasename(dir, name);
    if dir != "" && !AllSlashes(dir) {
      DirnameNoTrailingSlash(if Dirname(prefix) != "" then prefix else filename);
      JoinSplits(dir, name);
    } else if dir != "" {
      JoinRootSplits(dir, name);
    }
  }

  /** Joining a plain name onto any directory keeps the name as the base name. */
  lemma JoinBasename(dir: string, name: string)
    requires name != [] && '/' !in name
    ensures Basename(JoinPath(dir, name)) == name
  {
    assert !StartsWith(name, "/") by { assert name[0] in name; }
    if dir == [] {
      assert JoinPath(dir, name) == name;
      SplitRecombines(name);
    } else if dir[|dir| - 1] == '/' {
      AfterLastSlashSkips(dir, name);
      assert (dir + name)[|dir|..] == name;
    } else {
      AfterLastSlashSkips(dir + "/", name);
      assert (dir + "/" + name)[|dir| + 1..] == name;
    }
  }

  /** A directory part that is not all slashes has no trailing slash. */
  lemma DirnameNoTrailingSlash(p: string)
    requires Dirname(p) != "" && !AllSlashes(Dirname(p))
    ensures Dirname(p)[|Dirname(p)| - 1] != '/'
  {
  }

  // ---------------------------------------------------------------------
  // The prefix length of get_save_image_path

  /**
   * A prefix ending in `/` names the folder and file `out`, but as written
   * the prefix length is that of `basename("out/")`, the empty string: the
   * image saved as `out_00001_.png` is not found again, the counter restarts
   * at 1 and the next save overwrites it.
   */
  lemma TrailingSlashOverwrites()
    ensures GetSaveImagePathAsWritten("out/", "o", Some(["out_00001_.png"])).counter == 1
    ensures BatchFile(GetSaveImagePathAsWritten("out/", "o", Some(["out_00001_.png"])).filename, 0, 1) == "out_00001_.png"
    ensures GetSaveImagePath("out/", "o", Some(["out_00001_.png"])).counter == 2
  {
    OutSlashPath();
    AsWrittenMissesSaved();
    CorrectedFindsSaved();
    FirstBatchOut();
  }

  /** `out/` normalises to `out`, whose base name is `out`, while the base name of `out/` itself is empty. */
  lemma OutSlashPath()
    ensures NormPath("out/") == "out" && Basename("out") == "out" && Basename("out/") == ""
  {
    OutSlashSplit();
    OutSlashNorm();
    SplitRecombines("out");
  }

  /** `out/` splits at its slash into `out` and the empty name. */
  lemma OutSlashSplit()
    ensures Split("out/", '/') == ["out", ""]
  {
    assert "out/" == "out" + ['/'] + "";
    SplitAround("out", '/', "");
    assert Split("", '/') == [""];
  }

  /** Normalising the components `out` and the empty name leaves `out`. */
  lemma OutSlashNorm()
    ensures NormComps(["out", ""], false) == ["out"]
  {
    assert ["out", ""][..1] == ["out"];
    assert NormComps(["out"], false) == ["out"] by {
      assert ["out"][..0] == [];
    }
  }

  /** With prefix length 0, `out_00001_.png` does not count under `out`. */
  lemma AsWrittenMissesSaved()
    ensures NextCounter(0, "out", Some(["out_00001_.png"])) == 1
  {
    var f := "out_00001_.png";
    assert !Counted(0, "out", f) by {
      assert Take(f, 1) == "o";
    }
    CounterIsNextNumber(0, "out", Some([f]));
  }

  /** With prefix length 3, `out_00001_.png` counts under `out` with number 1. */
  lemma CorrectedFindsSaved()
    ensures NextCounter(3, "out", Some(["out_00001_.png"])) == 2
  {
    var f := "out_00001_.png";
    SavedOut();
    SavedNameCounted("out", 1, f);
    assert forall g :: g in [f] ==> g == f;
    CounterFromBound(3, "out", [f], 1);
  }

  /** The first image of a batch saved under `out` from counter 1 is `out_00001_.png`. */
  lemma FirstBatchOut()
    ensures BatchFile("out", 0, 1) == "out_00001_.png"
  {
    SavedOut();
    ShorterNotContains("out", BATCH_NUM);
    BatchFileIsSaved("out", 0, 1);
  }

  /** The first image saved under `out` is `out_00001_.png`. */
  lemma SavedOut()
    ensures SavedName("out", 1) == "out_00001_.png"
  {
    assert Format05(1) == "00001" by {
      assert Digits(1) == "1";
      assert Zeros(4) == "0000";
    }
  }
}
