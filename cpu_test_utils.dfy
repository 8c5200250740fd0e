/**
  The string and sequence helpers of the CPU plugin's functional-test
  utilities: joining memory-format names and implementation priorities,
  splitting the recorded output-layout string, membership tests over format
  lists and the all-equal tests over formats and over raw output bytes.
*/
module CpuTestUtils {

  // ---------------------------------------------------------------------
  // Joining
  // ---------------------------------------------------------------------

  /** `pieces` joined by `sep`, with no separator after the last piece. */
  function Join(pieces: seq<string>, sep: string): string
  {
    if |pieces| == 0 then ""
    else if |pieces| == 1 then pieces[0]
    else pieces[0] + sep + Join(pieces[1..], sep)
  }

  /** Every piece followed by `sep`: the string the joining loops build
      before dropping the last character. */
  function Terminated(pieces: seq<string>, sep: string): string
  {
    if |pieces| == 0 then ""
    else Terminated(pieces[..|pieces| - 1], sep) + pieces[|pieces| - 1] + sep
  }

  lemma {:induction false} JoinSnoc(pieces: seq<string>, p: string, sep: string)
    requires |pieces| > 0
    ensures Join(pieces + [p], sep) == Join(pieces, sep) + sep + p
  {
    if |pieces| > 1 {
      assert (pieces + [p])[1..] == pieces[1..] + [p];
      JoinSnoc(pieces[1..], p, sep);
    }
  }

  /** The loop's string is the join followed by one separator. */
  lemma {:induction false} TerminatedIsJoinThenSep(pieces: seq<string>, sep: string)
    requires |pieces| > 0
    ensures Terminated(pieces, sep) == Join(pieces, sep) + sep
  {
    var init := pieces[..|pieces| - 1];
    var last := pieces[|pieces| - 1];
    if |init| > 0 {
      TerminatedIsJoinThenSep(init, sep);
      assert init + [last] == pieces;
      JoinSnoc(init, last, sep);
    }
  }

  lemma TerminatedSnoc(pieces: seq<string>, p: string, sep: string)
    ensures Terminated(pieces + [p], sep) == Terminated(pieces, sep) + p + sep
  {
    assert (pieces + [p])[..|pieces|] == pieces;
  }

  /** Dropping the last character of the loop's string (pop_back, when the
      string is not empty) leaves the join. */
  lemma PopBackGivesJoin(pieces: seq<string>, sep: char)
    ensures var str := Terminated(pieces, [sep]);
            (if |str| > 0 then str[..|str| - 1] else str) == Join(pieces, [sep])
  {
    if |pieces| > 0 {
      TerminatedIsJoinThenSep(pieces, [sep]);
      var j := Join(pieces, [sep]);
      assert (j + [sep])[..|j + [sep]| - 1] == j;
    }
  }

  /** The entries of fmts2str: the prefix followed by each format's name. */
  function Labels<F>(fmts: seq<F>, prefix: string, fmt2str: F -> string): (r: seq<string>)
    ensures |r| == |fmts|
  {
    seq(|fmts|, i requires 0 <= i < |fmts| => prefix + fmt2str(fmts[i]))
  }

  /** fmts2str: `prefix + name` for every format, joined by commas. The
      format-to-name mapping cpu_fmt2str is a parameter. */
  method Fmts2Str<F>(fmts: seq<F>, prefix: string, fmt2str: F -> string) returns (str: string)
    ensures str == Join(Labels(fmts, prefix, fmt2str), ",")
  {
    str := "";
    for i := 0 to |fmts|
      invariant str == Terminated(Labels(fmts[..i], prefix, fmt2str), ",")
    {
      assert Labels(fmts[..i + 1], prefix, fmt2str) == Labels(fmts[..i], prefix, fmt2str) + [prefix + fmt2str(fmts[i])];
      TerminatedSnoc(Labels(fmts[..i], prefix, fmt2str), prefix + fmt2str(fmts[i]), ",");
      str := str + prefix + fmt2str(fmts[i]) + ",";
    }
    assert fmts[..|fmts|] == fmts;
    PopBackGivesJoin(Labels(fmts, prefix, fmt2str), ',');
    if |str| > 0 {
      str := str[..|str| - 1];
    }
  }

  /** The entries of impls2primProiority: "cpu:" before every non-empty
      implementation name, empty names skipped. */
  function CpuImpls(priority: seq<string>): seq<string>
  {
    if |priority| == 0 then []
    else
      var last := priority[|priority| - 1];
      CpuImpls(priority[..|priority| - 1]) + (if last == "" then [] else ["cpu:" + last])
  }

  /** impls2primProiority, returning the priority string it wraps. */
  method Impls2PrimPriority(priority: seq<string>) returns (str: string)
    ensures str == Join(CpuImpls(priority), ",")
  {
    str := "";
    for i := 0 to |priority|
      invariant str == Terminated(CpuImpls(priority[..i]), ",")
    {
      assert priority[..i + 1][..i] == priority[..i];
      if priority[i] != "" {
        assert CpuImpls(priority[..i + 1]) == CpuImpls(priority[..i]) + ["cpu:" + priority[i]];
        TerminatedSnoc(CpuImpls(priority[..i]), "cpu:" + priority[i], ",");
        str := str + "cpu:" + priority[i] + ",";
      } else {
        assert CpuImpls(priority[..i + 1]) == CpuImpls(priority[..i]);
      }
    }
    assert priority[..|priority|] == priority;
    PopBackGivesJoin(CpuImpls(priority), ',');
    if |str| > 0 {
      str := str[..|str| - 1];
    }
  }

  /** The indices of the non-empty names. */
  ghost function NonEmptyNames(priority: seq<string>): set<nat>
  {
    set i: nat | i < |priority| && priority[i] != ""
  }

  /** Every entry of CpuImpls is "cpu:" followed by a non-empty name of the
      input, and there is one entry per non-empty name. */
  lemma CpuImplsEntries(priority: seq<string>)
    ensures forall k :: 0 <= k < |CpuImpls(priority)| ==>
              exists i :: 0 <= i < |priority| && priority[i] != "" && CpuImpls(priority)[k] == "cpu:" + priority[i]
    ensures |CpuImpls(priority)| == |NonEmptyNames(priority)|
  {
    CpuImplsFromNames(priority);
    CpuImplsCount(priority);
  }

  lemma {:induction false} CpuImplsFromNames(priority: seq<string>)
    ensures forall k :: 0 <= k < |CpuImpls(priority)| ==>
              exists i :: 0 <= i < |priority| && priority[i] != "" && CpuImpls(priority)[k] == "cpu:" + priority[i]
  {
    if |priority| > 0 {
      var init, last := priority[..|priority| - 1], priority[|priority| - 1];
      CpuImplsFromNames(init);
      var before, now := CpuImpls(init), CpuImpls(priority);
      assert now == before + (if last == "" then [] else ["cpu:" + last]);
      forall k | 0 <= k < |now|
        ensures exists i :: 0 <= i < |priority| && priority[i] != "" && now[k] == "cpu:" + priority[i]
      {
        if k < |before| {
          var i :| 0 <= i < |init| && init[i] != "" && before[k] == "cpu:" + init[i];
          assert priority[i] == init[i];
        } else {
          assert now[k] == "cpu:" + priority[|priority| - 1];
        }
      }
    } else {
      assert CpuImpls(priority) == [];
    }
  }

  lemma {:induction false} CpuImplsCount(priority: seq<string>)
    ensures |CpuImpls(priority)| == |NonEmptyNames(priority)|
  {
    if |priority| > 0 {
      var init, last := priority[..|priority| - 1], priority[|priority| - 1];
      CpuImplsCount(init);
      var before, now := NonEmptyNames(init), NonEmptyNames(priority);
      if last == "" {
        assert now == before;
      } else {
        assert now == before + {|priority| - 1};
      }
    } else {
      assert NonEmptyNames(priority) == {};
    }
  }

  // ---------------------------------------------------------------------
  // Splitting the output-layout string
  // ---------------------------------------------------------------------

  /** The position of the first ',' in `s`, or |s| when there is none. */
  function IndexOfComma(s: string): (j: nat)
    ensures j <= |s|
  {
    if |s| == 0 then 0
    else if s[0] == ',' then 0
    else 1 + IndexOfComma(s[1..])
  }

  predicate CommaFree(p: string)
  {
    forall k :: 0 <= k < |p| ==> p[k] != ','
  }

  /** IndexOfComma stops at the first comma, after a comma-free run. */
  lemma {:induction false} IndexOfCommaStops(s: string)
    ensures IndexOfComma(s) < |s| ==> s[IndexOfComma(s)] == ','
    ensures CommaFree(s[..IndexOfComma(s)])
  {
    if |s| > 0 && s[0] != ',' {
      IndexOfCommaStops(s[1..]);
      var j := IndexOfComma(s[1..]);
      assert s[..1 + j] == [s[0]] + s[1..][..j];
    }
  }

  /** A comma-free run ending at a comma (or at the end) is where
      IndexOfComma stops. */
  lemma {:induction false} IndexOfCommaAt(s: string, j: nat)
    requires j <= |s| && (j < |s| ==> s[j] == ',')
    requires CommaFree(s[..j])
    ensures IndexOfComma(s) == j
  {
    IndexOfCommaStops(s);
  }

  /** The pieces std::getline(ss, str, ',') reads from `s`: the text between
      commas, in order; an empty string yields no piece and a trailing comma
      does not start a further, empty piece. */
  function Split(s: string): seq<string>
    decreases |s|
  {
    if |s| == 0 then []
    else
      var j := IndexOfComma(s);
      if j == |s| then [s] else [s[..j]] + Split(s[j + 1..])
  }

  /** One getline step: the piece up to the comma at `j` (or the end). */
  lemma {:induction false} SplitStep(s: string, pos: nat, j: nat)
    requires pos < |s| && pos <= j <= |s|
    requires j < |s| ==> s[j] == ','
    requires CommaFree(s[pos..j])
    ensures j < |s| ==> Split(s[pos..]) == [s[pos..j]] + Split(s[j + 1..])
    ensures j == |s| ==> Split(s[pos..]) == [s[pos..j]]
  {
    var rest := s[pos..];
    assert rest[..j - pos] == s[pos..j];
    IndexOfCommaAt(rest, j - pos);
    if j < |s| {
      assert rest[j - pos + 1..] == s[j + 1..];
    } else {
      assert s[pos..j] == rest;
    }
  }

  /** The first comma at or after `pos`, or |s|. */
  method FindComma(s: string, pos: nat) returns (j: nat)
    requires pos <= |s|
    ensures pos <= j <= |s|
    ensures j < |s| ==> s[j] == ','
    ensures CommaFree(s[pos..j])
  {
    j := pos;
    while j < |s| && s[j] != ','
      invariant pos <= j <= |s|
      invariant CommaFree(s[pos..j])
    {
      assert s[pos..j + 1] == s[pos..j] + [s[j]];
      j := j + 1;
    }
  }

  /** The getActualOutputMemoryFormats lambda: a getline loop over ','. */
  method SplitOutputFormats(fmtStr: string) returns (result: seq<string>)
    ensures result == Split(fmtStr)
  {
    result := [];
    var pos := 0;
    while pos < |fmtStr|
      invariant 0 <= pos <= |fmtStr|
      invariant result + Split(fmtStr[pos..]) == Split(fmtStr)
      decreases |fmtStr| - pos
    {
      var j := FindComma(fmtStr, pos);
      SplitStep(fmtStr, pos, j);
      var piece := fmtStr[pos..j];
      if j < |fmtStr| {
        assert result + ([piece] + Split(fmtStr[j + 1..])) == (result + [piece]) + Split(fmtStr[j + 1..]);
        result := result + [piece];
        pos := j + 1;
      } else {
        result := result + [piece];
        pos := j;
      }
    }
    assert fmtStr[pos..] == [];
  }

  lemma {:induction false} IndexOfCommaAfterPiece(p: string, t: string)
    requires CommaFree(p)
    ensures IndexOfComma(p + "," + t) == |p|
  {
    assert (p + "," + t)[..|p|] == p;
    IndexOfCommaAt(p + "," + t, |p|);
  }

  lemma {:induction false} IndexOfCommaOfPiece(p: string)
    requires CommaFree(p)
    ensures IndexOfComma(p) == |p|
  {
    assert p[..|p|] == p;
    IndexOfCommaAt(p, |p|);
  }

  lemma JoinCons(p: string, pieces: seq<string>, sep: string)
    requires |pieces| > 0
    ensures Join([p] + pieces, sep) == p + sep + Join(pieces, sep)
  {
    assert ([p] + pieces)[1..] == pieces;
  }

  /** Splitting a comma join gives the pieces back when no piece holds a
      comma and the last piece is not empty. */
  lemma {:induction false} SplitJoin(pieces: seq<string>)
    requires forall i :: 0 <= i < |pieces| ==> CommaFree(pieces[i])
    requires |pieces| > 0 ==> pieces[|pieces| - 1] != ""
    ensures Split(Join(pieces, ",")) == pieces
    decreases |pieces|
  {
    if |pieces| == 1 {
      IndexOfCommaOfPiece(pieces[0]);
    } else if |pieces| > 1 {
      var p, tail := pieces[0], pieces[1..];
      var rest := Join(tail, ",");
      var s := p + "," + rest;
      assert Join(pieces, ",") == s;
      IndexOfCommaAfterPiece(p, rest);
      assert s[..|p|] == p;
      assert s[|p| + 1..] == rest;
      assert Split(s) == [p] + Split(rest);
      SplitJoin(tail);
      assert [p] + tail == pieces;
    }
  }

  /** One step of Split at the first comma of `s`. */
  lemma SplitAtFirstComma(s: string)
    requires IndexOfComma(s) < |s|
    ensures Split(s) == [s[..IndexOfComma(s)]] + Split(s[IndexOfComma(s) + 1..])
  {
    var j := IndexOfComma(s);
    IndexOfCommaStops(s);
    assert s[0..j] == s[..j];
    SplitStep(s, 0, j);
    assert s[0..] == s;
  }

  lemma SplitNonEmpty(s: string)
    requires |s| > 0
    ensures |Split(s)| > 0
  {
  }

  lemma SliceAround(s: string, j: nat)
    requires j < |s|
    ensures s == s[..j] + [s[j]] + s[j + 1..]
  {
  }

  /** Joining the pieces of a string that does not end in a comma gives the
      string back. */
  lemma {:induction false} JoinSplit(s: string)
    requires |s| > 0 ==> s[|s| - 1] != ','
    ensures Join(Split(s), ",") == s
    decreases |s|
  {
    if |s| > 0 {
      var j := IndexOfComma(s);
      if j < |s| {
        IndexOfCommaStops(s);
        var piece, rest := s[..j], s[j + 1..];
        JoinSplit(rest);
        SplitNonEmpty(rest);
        SplitAtFirstComma(s);
        JoinCons(piece, Split(rest), ",");
        SliceAround(s, j);
      }
    }
  }

  /** Every piece of a split is comma-free. */
  lemma {:induction false} SplitPiecesCommaFree(s: string)
    ensures forall i :: 0 <= i < |Split(s)| ==> CommaFree(Split(s)[i])
    decreases |s|
  {
    if |s| > 0 {
      var j := IndexOfComma(s);
      IndexOfCommaStops(s);
      if j < |s| {
        SplitPiecesCommaFree(s[j + 1..]);
        SplitAtFirstComma(s);
      } else {
        assert s[..j] == s;
        assert Split(s) == [s];
      }
    }
  }

  // ---------------------------------------------------------------------
  // Format membership
  // ---------------------------------------------------------------------

  /** Some element of `formats` occurs in `list`. */
  predicate AnyIn<F(==)>(formats: seq<F>, list: seq<F>)
  {
    exists i :: 0 <= i < |formats| && formats[i] in list
  }

  /** Every element of `formats` occurs in `list`. */
  predicate AllIn<F(==)>(formats: seq<F>, list: seq<F>)
  {
    forall i :: 0 <= i < |formats| ==> formats[i] in list
  }

  /** containsNonSupportedFormat: a loop over `formats` that returns true at
      the first one found among the non-supported formats. */
  method ContainsNonSupportedFormat<F(==)>(formats: seq<F>, nonSupported: seq<F>) returns (r: bool)
    ensures r <==> exists i :: 0 <= i < |formats| && formats[i] in nonSupported
  {
    for i := 0 to |formats|
      invariant forall j :: 0 <= j < i ==> formats[j] !in nonSupported
    {
      if formats[i] in nonSupported {
        return true;
      }
    }
    return false;
  }

  /** containsSupportedFormatsOnly: a loop over `formats` that returns false
      at the first one missing from the supported formats. */
  method ContainsSupportedFormatsOnly<F(==)>(formats: seq<F>, supported: seq<F>) returns (r: bool)
    ensures r <==> forall i :: 0 <= i < |formats| ==> formats[i] in supported
  {
    for i := 0 to |formats|
      invariant forall j :: 0 <= j < i ==> formats[j] in supported
    {
      if formats[i] !in supported {
        return false;
      }
    }
    return true;
  }

  /** The two tests are complementary for complementary lists: when a format
      is non-supported exactly when it is not supported, `formats` contains a
      non-supported format exactly when it does not contain supported ones
      only. */
  lemma ComplementaryLists<F>(formats: seq<F>, nonSupported: seq<F>, supported: seq<F>)
    requires forall i :: 0 <= i < |formats| ==> (formats[i] in nonSupported <==> formats[i] !in supported)
    ensures AnyIn(formats, nonSupported) <==> !AllIn(formats, supported)
  {
  }

  /** Given the same list, the two tests are not complementary: both hold. */
  lemma SameListNotComplementary()
    ensures AnyIn([1], [1]) && AllIn([1], [1])
  {
    assert [1][0] in [1];
  }

  // ---------------------------------------------------------------------
  // All-equal tests
  // ---------------------------------------------------------------------

  /** Every element equals the first one. */
  predicate AllEqual<T(==)>(s: seq<T>)
  {
    forall i :: 0 <= i < |s| ==> s[i] == s[0]
  }

  lemma {:induction false} AdjacentEqualIsAllEqual<T>(s: seq<T>)
    ensures (forall i :: 1 <= i < |s| ==> s[i - 1] == s[i]) <==> AllEqual(s)
  {
    if forall i :: 1 <= i < |s| ==> s[i - 1] == s[i] {
      var k := 0;
      while k < |s|
        invariant k <= |s|
        invariant forall i :: 0 <= i < k ==> s[i] == s[0]
      {
        if k > 0 {
          assert s[k - 1] == s[k];
        }
        k := k + 1;
      }
    }
  }

  /** The isAllEqual / fmtsNum computation of CheckPluginRelatedResultsImpl:
      the expected formats are all equal when every adjacent pair is; then
      one format (none for an empty list) is checked, otherwise all. */
  method ExpectedOutputFormatsCount<F(==)>(outFmts: seq<F>) returns (isAllEqual: bool, fmtsNum: nat)
    ensures isAllEqual <==> AllEqual(outFmts)
    ensures isAllEqual ==> fmtsNum == (if |outFmts| == 0 then 0 else 1)
    ensures !isAllEqual ==> fmtsNum == |outFmts| && fmtsNum >= 2
  {
    isAllEqual := true;
    var i := 1;
    while i < |outFmts|
      invariant 1 <= i
      invariant forall j :: 1 <= j < i && j < |outFmts| ==> outFmts[j - 1] == outFmts[j]
    {
      if outFmts[i - 1] != outFmts[i] {
        isAllEqual := false;
        break;
      }
      i := i + 1;
    }
    AdjacentEqualIsAllEqual(outFmts);
    fmtsNum := |outFmts|;
    if isAllEqual {
      fmtsNum := if fmtsNum == 0 then 0 else 1;
    }
  }

  /** Element `k` of a buffer of `size`-byte elements. */
  function Element(data: seq<bv8>, size: nat, k: nat): seq<bv8>
  {
    var start := Mul(size, k);
    if start + size <= |data| then data[start..start + size] else []
  }

  /** size * k, with the facts about it the proofs use. */
  function Mul(size: nat, k: nat): (r: nat)
  {
    if k == 0 then 0 else Mul(size, k - 1) + size
  }

  lemma {:induction false} MulIsProduct(size: nat, k: nat)
    ensures Mul(size, k) == size * k
  {
    if k > 0 {
      MulIsProduct(size, k - 1);
    }
  }

  lemma {:induction false} MulMonotone(size: nat, a: nat, b: nat)
    requires a <= b
    ensures Mul(size, a) <= Mul(size, b)
    decreases b
  {
    if a < b {
      MulMonotone(size, a, b - 1);
    }
  }

  /** areAllElementsEqual: fewer than two elements, or the bytes from element
      1 on equal the bytes up to the last element (one memcmp). */
  function AreAllElementsEqual(data: seq<bv8>, elementSize: nat, n: nat): (r: bool)
    requires elementSize * n <= |data|
    ensures r <==> forall k :: 0 <= k < n ==> Element(data, elementSize, k) == Element(data, elementSize, 0)
  {
    MulIsProduct(elementSize, n);
    if n < 2 then
      SmallBuffersAllEqual(data, elementSize, n);
      true
    else
      MulMonotone(elementSize, 1, n);
      MulMonotone(elementSize, n - 1, n);
      ShiftedBlocksEqual(data, elementSize, n);
      data[elementSize..Mul(elementSize, n)] == data[0..Mul(elementSize, n - 1)]
  }

  lemma SmallBuffersAllEqual(data: seq<bv8>, size: nat, n: nat)
    requires n < 2
    ensures forall k :: 0 <= k < n ==> Element(data, size, k) == Element(data, size, 0)
  {
  }

  /** The memcmp holds exactly when every element equals element 0. */
  lemma ShiftedBlocksEqual(data: seq<bv8>, size: nat, n: nat)
    requires n >= 2 && Mul(size, n) <= |data|
    ensures size <= Mul(size, n - 1) + size == Mul(size, n)
    ensures data[size..Mul(size, n)] == data[0..Mul(size, n - 1)] <==>
            forall k :: 0 <= k < n ==> Element(data, size, k) == Element(data, size, 0)
  {
    MulMonotone(size, 1, n - 1);
    var whole := Mul(size, n);
    var shifted := data[size..whole];
    var front := data[0..Mul(size, n - 1)];
    if shifted == front {
      forall k | 0 <= k < n
        ensures Element(data, size, k) == Element(data, size, 0)
      {
        ElementEqualsFirst(data, size, n, k);
      }
    }
    if forall k :: 0 <= k < n ==> Element(data, size, k) == Element(data, size, 0) {
      forall j | 0 <= j < Mul(size, n - 1)
        ensures shifted[j] == front[j]
      {
        ShiftedByte(data, size, n, j);
      }
    }
  }

  /** From the memcmp: byte t of element k equals byte t of element 0. */
  lemma {:induction false} ElementEqualsFirst(data: seq<bv8>, size: nat, n: nat, k: nat)
    requires n >= 2 && Mul(size, n) <= |data| && k < n
    requires size <= Mul(size, n)
    requires data[size..Mul(size, n)] == data[0..Mul(size, n - 1)]
    ensures Element(data, size, k) == Element(data, size, 0)
    decreases k
  {
    if k > 0 {
      ElementEqualsFirst(data, size, n, k - 1);
      ElementEqualsPrevious(data, size, n, k);
    }
  }

  /** From the memcmp: element k equals element k - 1. */
  lemma ElementEqualsPrevious(data: seq<bv8>, size: nat, n: nat, k: nat)
    requires n >= 2 && Mul(size, n) <= |data| && 0 < k < n
    requires size <= Mul(size, n)
    requires data[size..Mul(size, n)] == data[0..Mul(size, n - 1)]
    ensures Element(data, size, k) == Element(data, size, k - 1)
  {
    var start := Mul(size, k - 1);
    assert Mul(size, k) == start + size;
    MulMonotone(size, k + 1, n);
    MulMonotone(size, k, n - 1);
    var shifted, front := data[size..Mul(size, n)], data[0..Mul(size, n - 1)];
    var here, before := Element(data, size, k), Element(data, size, k - 1);
    assert here == data[start + size..start + size + size];
    assert before == data[start..start + size];
    forall t | 0 <= t < size
      ensures here[t] == before[t]
    {
      assert shifted[start + t] == front[start + t];
    }
  }

  /** From all elements equal: byte j after element 0 equals byte j. */
  lemma ShiftedByte(data: seq<bv8>, size: nat, n: nat, j: nat)
    requires n >= 2 && Mul(size, n) <= |data| && j < Mul(size, n - 1)
    requires forall k :: 0 <= k < n ==> Element(data, size, k) == Element(data, size, 0)
    ensures data[size + j] == data[j]
  {
    var q, t := BlockOf(size, n - 1, j);
    var start := Mul(size, q);
    assert Mul(size, q + 1) == start + size;
    MulMonotone(size, q + 2, n);
    MulMonotone(size, 1, n);
    assert Mul(size, 1) == size;
    var here, next, first := Element(data, size, q), Element(data, size, q + 1), Element(data, size, 0);
    assert here == data[start..start + size];
    assert next == data[start + size..start + size + size];
    assert first == data[0..size];
    assert here[t] == data[j];
    assert next[t] == data[size + j];
  }

  /** Byte j of the first m elements lies in element q at offset t. */
  lemma {:induction false} BlockOf(size: nat, m: nat, j: nat) returns (q: nat, t: nat)
    requires j < Mul(size, m)
    ensures q < m && t < size && j == Mul(size, q) + t
    decreases m
  {
    if j < Mul(size, m - 1) {
      q, t := BlockOf(size, m - 1, j);
    } else {
      q, t := m - 1, j - Mul(size, m - 1);
    }
  }
}
