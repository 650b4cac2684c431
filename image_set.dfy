/**
 * ImageSet.py: a folder of GIF masks named "<class>-<number>.gif" becomes a
 * list of samples with binary masks and class ids numbered in order of first
 * appearance.
 *
 * Reading the folder and decoding the images are outside the model: the
 * files arrive as (stem, pixel grid) pairs already in sorted order, and the
 * crop applied after binarisation is a function parameter.
 */
module ImageSet {

  import opened Wrappers

  newtype UInt8 = x: int | 0 <= x < 256

  /** A pixel grid, row by row. */
  type Grid = seq<seq<UInt8>>

  predicate IsRect(g: Grid)
  {
    forall i :: 0 <= i < |g| ==> |g[i]| == |g[0]|
  }

  // ---------------------------------------------------------------------
  // Binarisation

  /** `arr[arr > 0] = 1` on one pixel. */
  function Threshold(p: UInt8): (b: UInt8)
  {
    if p > 0 then 1 else p
  }

  /** A thresholded pixel is 0 or 1, it is 1 exactly when the pixel was positive, and thresholding twice changes nothing. */
  lemma ThresholdFacts(p: UInt8)
    ensures Threshold(p) == 0 || Threshold(p) == 1
    ensures Threshold(p) == 1 <==> p > 0
    ensures Threshold(Threshold(p)) == Threshold(p)
  {
  }

  function Binarized(g: Grid): (b: Grid)
    ensures |b| == |g|
    ensures forall i :: 0 <= i < |g| ==> |b[i]| == |g[i]|
  {
    seq(|g|, i requires 0 <= i < |g| => seq(|g[i]|, j requires 0 <= j < |g[i]| => Threshold(g[i][j])))
  }

  function GridOf(arr: array2<UInt8>): (g: Grid)
    reads arr
    ensures |g| == arr.Length0 && IsRect(g)
  {
    seq(arr.Length0, i requires 0 <= i < arr.Length0 reads arr =>
      seq(arr.Length1, j requires 0 <= j < arr.Length1 reads arr => arr[i, j]))
  }

  /** `np.array(img, dtype=np.uint8)`: a fresh array holding the image's pixels. */
  method NewArray(g: Grid) returns (arr: array2<UInt8>)
    requires IsRect(g)
    ensures fresh(arr)
    ensures GridOf(arr) == g
  {
    var width := if |g| == 0 then 0 else |g[0]|;
    arr := new UInt8[|g|, width];
    var i := 0;
    while i < |g|
      invariant 0 <= i <= |g|
      invariant forall a, b :: 0 <= a < i && 0 <= b < width ==> arr[a, b] == g[a][b]
    {
      var j := 0;
      while j < width
        invariant 0 <= j <= width
        invariant forall a, b :: 0 <= a < i && 0 <= b < width ==> arr[a, b] == g[a][b]
        invariant forall b :: 0 <= b < j ==> arr[i, b] == g[i][b]
      {
        arr[i, j] := g[i][j];
        j := j + 1;
      }
      i := i + 1;
    }
    assert forall a :: 0 <= a < |g| ==> GridOf(arr)[a] == g[a];
  }

  /** `arr[arr > 0] = 1`, in place. */
  method Binarize(arr: array2<UInt8>)
    modifies arr
    ensures forall i, j :: 0 <= i < arr.Length0 && 0 <= j < arr.Length1 ==> arr[i, j] == Threshold(old(arr[i, j]))
    ensures GridOf(arr) == Binarized(old(GridOf(arr)))
  {
    var i := 0;
    while i < arr.Length0
      invariant 0 <= i <= arr.Length0
      invariant forall a, b :: 0 <= a < i && 0 <= b < arr.Length1 ==> arr[a, b] == Threshold(old(arr[a, b]))
      invariant forall a, b :: i <= a < arr.Length0 && 0 <= b < arr.Length1 ==> arr[a, b] == old(arr[a, b])
    {
      var j := 0;
      while j < arr.Length1
        invariant 0 <= j <= arr.Length1
        invariant forall a, b :: 0 <= a < i && 0 <= b < arr.Length1 ==> arr[a, b] == Threshold(old(arr[a, b]))
        invariant forall b :: 0 <= b < j ==> arr[i, b] == Threshold(old(arr[i, b]))
        invariant forall a, b :: i <= a < arr.Length0 && 0 <= b < arr.Length1 && (a > i || b >= j) ==> arr[a, b] == old(arr[a, b])
      {
        if arr[i, j] > 0 {
          arr[i, j] := 1;
        }
        j := j + 1;
      }
      i := i + 1;
    }
    assert forall a :: 0 <= a < arr.Length0 ==> GridOf(arr)[a] == Binarized(old(GridOf(arr)))[a];
  }

  /** Lines 20-31: copy the image into an array, binarise it in place and crop it. */
  method ReadMask(pixels: Grid, crop: Grid -> Grid) returns (mask: Grid)
    requires IsRect(pixels)
    ensures mask == crop(Binarized(pixels))
  {
    var arr := NewArray(pixels);
    Binarize(arr);
    mask := crop(GridOf(arr));
  }

  /** `np.sum(arr)`: the total of all pixels. */
  function Sum(g: Grid): int
  {
    if |g| == 0 then 0 else Sum(g[..|g| - 1]) + RowSum(g[|g| - 1])
  }

  function RowSum(row: seq<UInt8>): int
  {
    if |row| == 0 then 0 else RowSum(row[..|row| - 1]) + row[|row| - 1] as int
  }

  /** On a binary mask the sum counts the "on" pixels, so it lies between 0 and the pixel count. */
  lemma {:induction false} BinarySumBounds(g: Grid)
    ensures 0 <= Sum(Binarized(g)) <= CellCount(g)
  {
    if |g| > 0 {
      var b := Binarized(g);
      assert b[..|b| - 1] == Binarized(g[..|g| - 1]);
      BinarySumBounds(g[..|g| - 1]);
      BinaryRowSumBounds(b[|b| - 1]);
    }
  }

  lemma {:induction false} BinaryRowSumBounds(row: seq<UInt8>)
    requires forall j :: 0 <= j < |row| ==> row[j] <= 1
    ensures 0 <= RowSum(row) <= |row|
  {
    if |row| > 0 {
      BinaryRowSumBounds(row[..|row| - 1]);
    }
  }

  function CellCount(g: Grid): nat
  {
    if |g| == 0 then 0 else CellCount(g[..|g| - 1]) + |g[|g| - 1]|
  }

  // ---------------------------------------------------------------------
  // File names

  /** `s.split("-")`: the pieces between dashes; there is always at least one. */
  function Split(s: string): (pieces: seq<string>)
    ensures |pieces| >= 1
  {
    if |s| == 0 then [""]
    else
      var p := Split(s[..|s| - 1]);
      var c := s[|s| - 1];
      if c == '-' then p + [""]
      else p[..|p| - 1] + [p[|p| - 1] + [c]]
  }

  /** No piece contains the separator. */
  lemma {:induction false} SplitPiecesHaveNoDash(s: string)
    ensures forall k :: 0 <= k < |Split(s)| ==> '-' !in Split(s)[k]
  {
    if |s| > 0 {
      SplitPiecesHaveNoDash(s[..|s| - 1]);
    }
  }

  /** `"-".join(pieces)`. */
  function Join(pieces: seq<string>): string
    requires |pieces| >= 1
  {
    if |pieces| == 1 then pieces[0] else Join(pieces[..|pieces| - 1]) + "-" + pieces[|pieces| - 1]
  }

  function DashCount(s: string): nat
  {
    if |s| == 0 then 0 else DashCount(s[..|s| - 1]) + if s[|s| - 1] == '-' then 1 else 0
  }

  /** Splitting loses nothing: there is one piece more than dashes, and joining the pieces gives the string back. */
  lemma {:induction false} SplitCount(s: string)
    ensures |Split(s)| == DashCount(s) + 1
  {
    if |s| > 0 {
      SplitCount(s[..|s| - 1]);
    }
  }

  lemma {:induction false} SplitJoin(s: string)
    ensures Join(Split(s)) == s
  {
    if |s| > 0 {
      var init := s[..|s| - 1];
      var p := Split(init);
      SplitJoin(init);
      var c := s[|s| - 1];
      assert s == init + [c];
      if c == '-' {
        JoinNewPiece(p);
      } else {
        JoinExtendLast(p, c);
      }
    }
  }

  /** Starting a new, empty piece appends the separator. */
  lemma JoinNewPiece(p: seq<string>)
    requires |p| >= 1
    ensures Join(p + [""]) == Join(p) + "-"
  {
    var p' := p + [""];
    assert p'[..|p'| - 1] == p;
  }

  /** Extending the last piece by c extends the joined string by c. */
  lemma JoinExtendLast(p: seq<string>, c: char)
    requires |p| >= 1
    ensures Join(p[..|p| - 1] + [p[|p| - 1] + [c]]) == Join(p) + [c]
  {
    var last := p[|p| - 1];
    var p' := p[..|p| - 1] + [last + [c]];
    assert |p'| == |p| && p'[|p'| - 1] == last + [c];
    if |p| == 1 {
      assert Join(p) == last && Join(p') == last + [c];
    } else {
      var pre := Join(p[..|p| - 1]);
      assert p'[..|p'| - 1] == p[..|p| - 1];
      assert Join(p') == pre + "-" + (last + [c]);
      assert Join(p) == pre + "-" + last;
      assert pre + "-" + (last + [c]) == (pre + "-" + last) + [c];
    }
  }

  /** A string without dashes joined to another by one dash splits back into the two. */
  lemma {:induction false} SplitTwo(a: string, b: string)
    requires '-' !in a && '-' !in b
    ensures Split(a + "-" + b) == [a, b]
    decreases |b|
  {
    if |b| == 0 {
      SplitNoDash(a);
      assert (a + "-" + b)[..|a + "-" + b| - 1] == a;
    } else {
      var init := b[..|b| - 1];
      SplitTwo(a, init);
      assert (a + "-" + b)[..|a + "-" + b| - 1] == a + "-" + init;
      assert init + [b[|b| - 1]] == b;
    }
  }

  lemma {:induction false} SplitNoDash(a: string)
    requires '-' !in a
    ensures Split(a) == [a]
  {
    if |a| > 0 {
      SplitNoDash(a[..|a| - 1]);
      assert a[..|a| - 1] + [a[|a| - 1]] == a;
    }
  }

  predicate IsDigit(c: char) { '0' <= c <= '9' }

  function DigitValue(c: char): nat
    requires IsDigit(c)
  {
    (c as int - '0' as int) as nat
  }

  /** Digits with single underscores between them, as int() accepts in base 10. */
  predicate ValidDigits(s: string)
  {
    && |s| > 0 && IsDigit(s[0]) && IsDigit(s[|s| - 1])
    && (forall k :: 0 <= k < |s| ==> IsDigit(s[k]) || s[k] == '_')
    && (forall k :: 0 <= k < |s| - 1 ==> s[k] == '_' ==> s[k + 1] != '_')
  }

  /** The number the digits spell, underscores skipped. */
  function DigitsValue(s: string): nat
    requires forall k :: 0 <= k < |s| ==> IsDigit(s[k]) || s[k] == '_'
  {
    if |s| == 0 then 0
    else if s[|s| - 1] == '_' then DigitsValue(s[..|s| - 1])
    else 10 * DigitsValue(s[..|s| - 1]) + DigitValue(s[|s| - 1])
  }

  /** `int(s)` in base 10: an optional sign, then digits; anything else raises (None). */
  function ParseInt(s: string): (r: Option<int>)
    ensures r.Some? && |s| > 0 && s[0] != '-' ==> r.value >= 0
  {
    if |s| > 0 && (s[0] == '+' || s[0] == '-') then
      var rest := s[1..];
      if !ValidDigits(rest) then None
      else
        var v: int := DigitsValue(rest);
        Some(if s[0] == '-' then -v else v)
    else if ValidDigits(s) then Some(DigitsValue(s))
    else None
  }

  /** `str(n)` for n >= 0. */
  function Decimal(n: nat): (s: string)
    ensures |s| >= 1
    ensures forall k :: 0 <= k < |s| ==> IsDigit(s[k])
    ensures n < 10 <==> |s| == 1
  {
    if n < 10 then [('0' as int + n) as char] else Decimal(n / 10) + [('0' as int + n % 10) as char]
  }

  lemma {:induction false} DecimalValue(n: nat)
    ensures DigitsValue(Decimal(n)) == n
  {
    if n >= 10 {
      DecimalValue(n / 10);
      var s := Decimal(n);
      assert s[..|s| - 1] == Decimal(n / 10);
    }
  }

  /** A leading zero does not change the value. */
  lemma {:induction false} LeadingZero(s: string)
    requires forall k :: 0 <= k < |s| ==> IsDigit(s[k]) || s[k] == '_'
    ensures DigitsValue("0" + s) == DigitsValue(s)
  {
    if |s| > 0 {
      assert ("0" + s)[..|"0" + s| - 1] == "0" + s[..|s| - 1];
      LeadingZero(s[..|s| - 1]);
    }
  }

  /** str() writes valid digits, also after zero padding. */
  lemma DecimalValid(n: nat)
    ensures ValidDigits(Decimal(n)) && ValidDigits("0" + Decimal(n))
  {
    var d := Decimal(n);
    var z := "0" + d;
    forall k | 0 <= k < |z|
      ensures IsDigit(z[k])
    {
      if k > 0 {
        assert z[k] == d[k - 1];
      }
    }
  }

  /** int() reads back what str() writes, also after zero padding. */
  lemma ParseDecimal(n: nat)
    ensures ParseInt(Decimal(n)) == Some(n)
    ensures ParseInt("0" + Decimal(n)) == Some(n)
  {
    var d := Decimal(n);
    DecimalValue(n);
    LeadingZero(d);
    DecimalValid(n);
    assert d[0] != '+' && d[0] != '-';
    assert ParseInt(d) == Some(DigitsValue(d));
    assert ParseInt("0" + d) == Some(DigitsValue("0" + d));
  }

  datatype StemError = NotTwoParts(count: nat) | NotAnInteger(text: string)

  /** `class_name, inclassid = f.stem.split("-")` and `int(inclassid)`. */
  function ParseStem(stem: string): (r: Result<(string, int), StemError>)
  {
    var pieces := Split(stem);
    if |pieces| != 2 then Failure(NotTwoParts(|pieces|))
    else match ParseInt(pieces[1])
      case None => Failure(NotAnInteger(pieces[1]))
      case Some(n) => Success((pieces[0], n))
  }

  /**
   * A stem parses exactly when it has one dash and the part after it is an
   * integer; the class name then has no dash, the number is not negative, and
   * the stem is the two parts joined by the dash.
   */
  lemma ParseStemSpec(stem: string)
    ensures ParseStem(stem).Success? <==> |Split(stem)| == 2 && ParseInt(Split(stem)[1]).Some?
    ensures ParseStem(stem).Success? ==>
      var (name, n) := ParseStem(stem).value;
      && '-' !in name && n >= 0
      && stem == name + "-" + Split(stem)[1]
      && ParseInt(Split(stem)[1]) == Some(n)
  {
    var pieces := Split(stem);
    SplitJoin(stem);
    SplitPiecesHaveNoDash(stem);
    if |pieces| == 2 {
      assert pieces[..1] == [pieces[0]];
      assert |pieces[1]| > 0 ==> pieces[1][0] != '-';
    }
  }

  // ---------------------------------------------------------------------
  // Class ids in order of first appearance

  /** The distinct names, each where it first occurs. */
  function FirstAppearance(names: seq<string>): (order: seq<string>)
    ensures |order| <= |names|
  {
    if |names| == 0 then []
    else
      var p := FirstAppearance(names[..|names| - 1]);
      var n := names[|names| - 1];
      assert names == names[..|names| - 1] + [n];
      if n in p then p else p + [n]
  }

  /** Every name is listed, and nothing else. */
  lemma {:induction false} FirstAppearanceNames(names: seq<string>)
    ensures forall n :: n in FirstAppearance(names) <==> n in names
  {
    if |names| > 0 {
      FirstAppearanceNames(names[..|names| - 1]);
      assert names == names[..|names| - 1] + [names[|names| - 1]];
    }
  }

  lemma FirstAppearanceSnoc(names: seq<string>, n: string)
    ensures FirstAppearance(names + [n]) == if n in FirstAppearance(names) then FirstAppearance(names) else FirstAppearance(names) + [n]
  {
    assert (names + [n])[..|names|] == names;
  }

  predicate Distinct(s: seq<string>)
  {
    forall i, j :: 0 <= i < j < |s| ==> s[i] != s[j]
  }

  /** Each name is listed once, and a name listed earlier first occurs earlier. */
  lemma {:induction false} FirstAppearanceOrder(names: seq<string>)
    ensures forall n :: n in FirstAppearance(names) <==> n in names
    ensures Distinct(FirstAppearance(names))
    ensures forall i, j :: 0 <= i < j < |FirstAppearance(names)| ==>
      FirstIndex(names, FirstAppearance(names)[i]) < FirstIndex(names, FirstAppearance(names)[j])
  {
    FirstAppearanceNames(names);
    if |names| > 0 {
      var init := names[..|names| - 1];
      FirstAppearanceOrder(init);
      var p := FirstAppearance(init);
      var n := names[|names| - 1];
      assert names == init + [n];
      forall m | m in init
        ensures FirstIndex(names, m) == FirstIndex(init, m)
      {
        FirstIndexPrefix(init, n, m);
      }
      if n !in p {
        assert FirstIndex(names, n) == |init| by {
          FirstIndexLast(init, n);
        }
        forall m | m in init
          ensures FirstIndex(names, m) < |init|
        {
          FirstIndexPrefix(init, n, m);
        }
      }
    }
  }

  lemma {:induction false} DistinctCard(s: seq<string>)
    requires Distinct(s)
    ensures |(set x | x in s)| == |s|
  {
    if |s| > 0 {
      var init := s[..|s| - 1];
      var last := s[|s| - 1];
      DistinctCard(init);
      assert (set x | x in s) == (set x | x in init) + {last} by {
        assert s == init + [last];
      }
      assert last !in (set x | x in init);
    }
  }

  /** `num_classes` is the number of distinct class names. */
  lemma ClassCount(names: seq<string>)
    ensures |FirstAppearance(names)| == |(set n | n in names)|
  {
    var order := FirstAppearance(names);
    FirstAppearanceOrder(names);
    DistinctCard(order);
    assert (set n | n in order) == (set n | n in names);
  }

  /** The index of the first occurrence of n in names. */
  function FirstIndex(names: seq<string>, n: string): (k: nat)
    requires n in names
    ensures k < |names| && names[k] == n
    ensures forall j :: 0 <= j < k ==> names[j] != n
  {
    if names[0] == n then 0 else 1 + FirstIndex(names[1..], n)
  }

  lemma FirstIndexPrefix(init: seq<string>, n: string, m: string)
    requires m in init
    ensures FirstIndex(init + [n], m) == FirstIndex(init, m)
  {
    var k := FirstIndex(init, m);
    var k' := FirstIndex(init + [n], m);
    assert (init + [n])[k] == m;
    assert init[k'] == m || k' == |init|;
  }

  lemma FirstIndexLast(init: seq<string>, n: string)
    requires n !in init
    ensures FirstIndex(init + [n], n) == |init|
  {
  }

  /** A sample of the data set. */
  datatype Sample = Sample(mask: Grid, classid: nat, on: int, classname: string, inclassid: int)

  /** A GIF file: its name without extension and its pixels. */
  datatype ImageFile = ImageFile(stem: string, pixels: Grid)

  function NameOf(f: ImageFile): string
    requires ParseStem(f.stem).Success?
  {
    ParseStem(f.stem).value.0
  }

  function Names(files: seq<ImageFile>): (names: seq<string>)
    requires forall i :: 0 <= i < |files| ==> ParseStem(files[i].stem).Success?
    ensures |names| == |files|
  {
    seq(|files|, i requires 0 <= i < |files| && ParseStem(files[i].stem).Success? => NameOf(files[i]))
  }

  /** The index of the first file whose stem does not parse. */
  function FirstBadStem(files: seq<ImageFile>): (k: nat)
    requires exists i :: 0 <= i < |files| && ParseStem(files[i].stem).Failure?
    ensures k < |files| && ParseStem(files[k].stem).Failure?
    ensures forall i :: 0 <= i < k ==> ParseStem(files[i].stem).Success?
  {
    if ParseStem(files[0].stem).Failure? then 0
    else
      var k' := FirstBadStem(files[1..]);
      assert forall i :: 0 <= i < k' ==> files[1..][i] == files[i + 1];
      1 + k'
  }

  /** The first failure is at i when every stem before i parses and stem i does not. */
  lemma FirstBadStemAt(files: seq<ImageFile>, i: nat)
    requires i < |files| && ParseStem(files[i].stem).Failure?
    requires forall j :: 0 <= j < i ==> ParseStem(files[j].stem).Success?
    ensures FirstBadStem(files) == i
  {
    var k := FirstBadStem(files);
    assert !(k < i) && !(i < k);
  }

  /** `ImageSet(folder)` */
  class ImageSet {
    var classNameToId: map<string, nat>
    var classIdToName: map<nat, string>
    var numClasses: nat
    var samples: seq<Sample>

    /** The two dictionaries are inverse over ids 0 .. num_classes - 1. */
    ghost predicate Valid()
      reads this`classNameToId, this`classIdToName, this`numClasses
    {
      && (forall k :: k in classIdToName <==> 0 <= k < numClasses)
      && (forall k :: k in classIdToName ==> classIdToName[k] in classNameToId && classNameToId[classIdToName[k]] == k)
      && (forall n :: n in classNameToId ==> classNameToId[n] in classIdToName && classIdToName[classNameToId[n]] == n)
    }

    /** The state before the loop over the files. */
    constructor()
      ensures Valid()
      ensures classNameToId == map[] && classIdToName == map[] && numClasses == 0 && samples == []
    {
      classNameToId := map[];
      classIdToName := map[];
      numClasses := 0;
      samples := [];
    }

    /**
     * The ids number the names of `order` 0, 1, 2, ... and every name of
     * `names` has an id.
     */
    ghost predicate Numbers(order: seq<string>, names: seq<string>)
      reads this`classNameToId, this`classIdToName, this`numClasses
    {
      && Valid()
      && numClasses == |order|
      && (forall k :: 0 <= k < numClasses ==> classIdToName[k] == order[k])
      && (forall j :: 0 <= j < |names| ==> names[j] in classNameToId)
    }

    /**
     * Lines 34-39: look the class name up, giving it the next id when it is
     * new. `order` lists the names seen so far by id, `names` every name seen.
     */
    method Intern(name: string, ghost order: seq<string>, ghost names: seq<string>) returns (id: nat)
      requires Numbers(order, names)
      modifies this
      ensures Numbers(if name in order then order else order + [name], names + [name])
      ensures name in order <==> name in old(classNameToId)
      ensures forall n :: n in old(classNameToId) ==> n in classNameToId && classNameToId[n] == old(classNameToId)[n]
      ensures samples == old(samples)
      ensures name in old(classNameToId) ==> classNameToId == old(classNameToId) && classIdToName == old(classIdToName) && numClasses == old(numClasses)
      ensures name !in old(classNameToId) ==>
        && classNameToId == old(classNameToId)[name := old(numClasses)]
        && classIdToName == old(classIdToName)[old(numClasses) := name]
        && numClasses == old(numClasses) + 1
      ensures name in classNameToId && id == classNameToId[name]
    {
      if name in classNameToId {
        assert order[classNameToId[name]] == name;
      } else {
        forall k | 0 <= k < |order|
          ensures order[k] != name
        {
          assert classIdToName[k] == order[k];
        }
      }
      if name !in classNameToId {
        assert numClasses !in classIdToName;
        classNameToId := classNameToId[name := numClasses];
        classIdToName := classIdToName[numClasses := name];
        numClasses := numClasses + 1;
      }
      id := classNameToId[name];
    }

    /**
     * The loop of `__init__` over the sorted files: binarise, crop, split the
     * stem, intern the class name and append the sample. A stem that does not
     * split into two parts or whose number does not parse raises; the model
     * returns the error of the first such file.
     */
    method Load(files: seq<ImageFile>, crop: Grid -> Grid) returns (err: Option<StemError>)
      requires forall i :: 0 <= i < |files| ==> IsRect(files[i].pixels)
      requires Valid() && classNameToId == map[] && numClasses == 0 && samples == []
      modifies this
      ensures err.None? <==> forall i :: 0 <= i < |files| ==> ParseStem(files[i].stem).Success?
      ensures err.Some? ==> err.value == ParseStem(files[FirstBadStem(files)].stem).error
      ensures err.None? ==>
        && Numbers(FirstAppearance(Names(files)), Names(files))
        && |samples| == |files|
        && (forall i :: 0 <= i < |files| ==> samples[i] == SampleOf(files[i], crop, classNameToId[Names(files)[i]]))
    {
      var i := 0;
      ghost var names: seq<string> := [];  // the class names of files[..i]
      ghost var order: seq<string> := [];  // the class names by id
      while i < |files|
        invariant Loaded(files, crop, i, order, names, samples, classNameToId) && Numbers(order, names)
      {
        var e;
        e, order, names := LoadFile(files, i, crop, order, names);
        if e.Some? {
          FirstBadStemAt(files, i);
          return e;
        }
        i := i + 1;
      }
      assert names == Names(files);
      err := None;
    }

    /** One turn of the loop of `__init__`, for file i. */
    method LoadFile(files: seq<ImageFile>, i: nat, crop: Grid -> Grid, ghost order: seq<string>, ghost names: seq<string>)
        returns (err: Option<StemError>, ghost order': seq<string>, ghost names': seq<string>)
      requires i < |files| && IsRect(files[i].pixels)
      requires Loaded(files, crop, i, order, names, samples, classNameToId) && Numbers(order, names)
      modifies this
      ensures err.Some? <==> ParseStem(files[i].stem).Failure?
      ensures err.Some? ==> err.value == ParseStem(files[i].stem).error
      ensures err.None? ==> Loaded(files, crop, i + 1, order', names', samples, classNameToId) && Numbers(order', names')
    {
      ghost var before, ids := samples, classNameToId;
      ghost var name;
      err, name := AddFile(files[i], crop, order, names);
      if err.Some? {
        return err, order, names;
      }
      LoadedExtend(files, crop, order, names, name, before, samples, ids, classNameToId);
      order' := if name in order then order else order + [name];
      names' := names + [name];
    }

    /**
     * The body of the loop for one file (lines 19-41): read and binarise
     * the mask, split the stem, intern the class name, append the sample.
     */
    method AddFile(f: ImageFile, crop: Grid -> Grid, ghost order: seq<string>, ghost names: seq<string>)
        returns (err: Option<StemError>, ghost name: string)
      requires IsRect(f.pixels)
      requires Numbers(order, names)
      modifies this
      ensures err.Some? <==> ParseStem(f.stem).Failure?
      ensures err.Some? ==> err.value == ParseStem(f.stem).error
      ensures err.None? ==>
        && name == NameOf(f)
        && Numbers(if name in order then order else order + [name], names + [name])
        && (forall n :: n in old(classNameToId) ==> n in classNameToId && classNameToId[n] == old(classNameToId)[n])
        && name in classNameToId
        && samples == old(samples) + [SampleOf(f, crop, classNameToId[name])]
    {
      var mask := ReadMask(f.pixels, crop);
      var parsed := ParseStem(f.stem);
      if parsed.Failure? {
        return Some(parsed.error), "";
      }
      var (className, inclassid) := parsed.value;
      var id := Intern(className, order, names);
      samples := samples + [Sample(mask, id, Sum(mask), className, inclassid)];
      return None, className;
    }

    /** `len(self)` */
    function Len(): (n: nat)
      reads this
      ensures n == |samples|
    {
      |samples|
    }

    /** `self[idx]`: Python indexing, negative indices counting from the end; out of range raises (None). */
    function GetItem(idx: int): (r: Option<Sample>)
      reads this
      ensures r.Some? <==> -|samples| <= idx < |samples|
    {
      if 0 <= idx < |samples| then Some(samples[idx])
      else if -|samples| <= idx < 0 then Some(samples[|samples| + idx])
      else None
    }

    /** Index -1 is the last sample, and i - len(self) names the same sample as i. */
    lemma GetItemWraps(i: int)
      requires 0 <= i < |samples|
      ensures GetItem(i) == Some(samples[i])
      ensures GetItem(i - |samples|) == GetItem(i)
      ensures GetItem(-1) == Some(samples[|samples| - 1])
    {
    }
  }

  /** Line 40: the sample of an image, its class and its number within the class. */
  function MakeSample(pixels: Grid, crop: Grid -> Grid, id: nat, name: string, inclassid: int): (s: Sample)
    ensures s.classname == name && s.classid == id && s.inclassid == inclassid
    ensures s.on == Sum(s.mask) && s.mask == crop(Binarized(pixels))
  {
    var mask := crop(Binarized(pixels));
    Sample(mask, id, Sum(mask), name, inclassid)
  }

  /**
   * The state after the loop of `__init__` has handled files[..i]: their
   * stems parse, `names` holds their class names and `order` those names in
   * order of first appearance, and sample j is built from file j with the id
   * `ids` gives its class name.
   */
  ghost predicate Loaded(files: seq<ImageFile>, crop: Grid -> Grid, i: int, order: seq<string>, names: seq<string>,
                         samples: seq<Sample>, ids: map<string, nat>)
  {
    && 0 <= i <= |files|
    && (forall j :: 0 <= j < i ==> ParseStem(files[j].stem).Success?)
    && |names| == i && |samples| == i
    && (forall j :: 0 <= j < i ==> names[j] == NameOf(files[j]))
    && order == FirstAppearance(names)
    && (forall j :: 0 <= j < i ==> names[j] in ids)
    && (forall j :: 0 <= j < i ==> samples[j] == SampleOf(files[j], crop, ids[names[j]]))
  }

  /**
   * Handling file i keeps the ids of the names seen before, so appending
   * file i's sample under the id of its class name extends the loaded state.
   */
  lemma LoadedExtend(files: seq<ImageFile>, crop: Grid -> Grid, order: seq<string>, names: seq<string>, name: string,
                     before: seq<Sample>, after: seq<Sample>, ids: map<string, nat>, ids': map<string, nat>)
    requires Loaded(files, crop, |names|, order, names, before, ids) && |names| < |files|
    requires ParseStem(files[|names|].stem).Success? && name == NameOf(files[|names|])
    requires name in ids' && forall n :: n in ids ==> n in ids' && ids'[n] == ids[n]
    requires after == before + [SampleOf(files[|names|], crop, ids'[name])]
    ensures Loaded(files, crop, |names| + 1, if name in order then order else order + [name], names + [name], after, ids')
  {
    var names' := names + [name];
    FirstAppearanceSnoc(names, name);
    forall j | 0 <= j <= |names|
      ensures names'[j] == NameOf(files[j]) && names'[j] in ids'
      ensures after[j] == SampleOf(files[j], crop, ids'[names'[j]])
    {
      if j < |names| {
        assert names'[j] == names[j];
      }
    }
  }

  /** The sample made from one file, once its class id is known. */
  function SampleOf(f: ImageFile, crop: Grid -> Grid, id: nat): (s: Sample)
    requires ParseStem(f.stem).Success?
  {
    MakeSample(f.pixels, crop, id, NameOf(f), ParseStem(f.stem).value.1)
  }
}
