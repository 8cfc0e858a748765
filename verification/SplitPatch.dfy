/** Splitting a diff into production and test patches (repogauge/export/split_patch.py).  File roles, file names,
    path clean-up and header tokens are unknown total functions. */
module SplitPatch {
  import opened Wrappers
  import opened Text
  import opened DiffBlocks

  datatype Env = Env(tokens: Tokens, role: string -> string, name: string -> string, clean: string -> string)

  datatype Bucket = Prod | Test | Excluded

  const HELPERS := {"conftest.py", "pytest.ini", "tox.ini"}
  const RENAME_FROM := "rename from "
  const RENAME_TO := "rename to "

  /** The value of the last line with the prefix; the empty string (falsy, like None) if there is none. */
  function LastValue(lines: seq<string>, prefix: string): string {
    if lines == [] then ""
    else
      var line := lines[|lines| - 1];
      if prefix <= line then Strip(line[|prefix|..]) else LastValue(lines[..|lines| - 1], prefix)
  }

  function Header(env: Env, b: Block): (string, string) {
    if b == [] || !IsHeader(env.tokens, b[0]) then ("", "") else ParseHeader(env.tokens, b[0]).value
  }

  /** Where the block's file ends up. */
  function Destination(env: Env, b: Block): string {
    var (a, z) := Header(env, b);
    var to := env.clean(Or(LastValue(b, RENAME_TO), z));
    var destination := Or(to, Or(z, a));
    if destination == "/dev/null" && a != "/dev/null" then a else destination
  }

  predicate IsTestBucket(env: Env, path: string) {
    env.role(path) == "test" || env.role(path) == "test_support" || env.name(path) in HELPERS
  }

  /** A rename between production and test files. */
  predicate Crosses(env: Env, b: Block) {
    var (a, z) := Header(env, b);
    var from, to := LastValue(b, RENAME_FROM), LastValue(b, RENAME_TO);
    from != "" && to != "" && IsTestBucket(env, env.clean(Or(from, a))) != IsTestBucket(env, env.clean(Or(to, z)))
  }

  function RoleOf(env: Env, b: Block): string {
    env.role(Destination(env, b))
  }

  /** `_bucket_for_file` */
  function BucketOf(env: Env, b: Block, includeSupport: bool): Bucket {
    var role := RoleOf(env, b);
    if role == "generated_vendor" || role == "docs" then Excluded
    else if role == "test" then Test
    else if role == "test_support" && includeSupport then Test
    else if env.name(Destination(env, b)) in HELPERS && includeSupport then Test
    else Prod
  }

  predicate HasTest(env: Env, blocks: seq<Block>) {
    exists i | 0 <= i < |blocks| :: RoleOf(env, blocks[i]) == "test"
  }

  function InBucket(env: Env, includeSupport: bool, bucket: Bucket): Block -> bool {
    (b: Block) => BucketOf(env, b, includeSupport) == bucket
  }

  // ---------- the split ----------

  datatype Split = Split(prod: string, test: string, prodFiles: seq<string>, testFiles: seq<string>,
                         supportFiles: seq<string>, excludedFiles: seq<string>, allFiles: seq<string>)

  function Destinations(env: Env, blocks: seq<Block>): seq<string> {
    if blocks == [] then [] else Destinations(env, blocks[..|blocks| - 1]) + [Destination(env, blocks[|blocks| - 1])]
  }

  /** The destinations once each, in order of first appearance. */
  function Touched(env: Env, blocks: seq<Block>): seq<string> {
    if blocks == [] then []
    else
      var before := Touched(env, blocks[..|blocks| - 1]);
      var path := Destination(env, blocks[|blocks| - 1]);
      if path in before then before else before + [path]
  }

  /** Blocks of the test bucket whose own role is, or is not, `test`. */
  function InTestRole(env: Env, isTest: bool): Block -> bool {
    (b: Block) => (RoleOf(env, b) == "test") == isTest
  }

  function BlocksIn(env: Env, diff: string, bucket: Bucket): seq<Block> {
    var blocks := TextBlocks(env.tokens, diff);
    Keep(blocks, InBucket(env, HasTest(env, blocks), bucket))
  }

  predicate AnyCrosses(env: Env, blocks: seq<Block>) {
    exists i | 0 <= i < |blocks| :: Crosses(env, blocks[i])
  }

  /** `split_prod_and_test`; the error is the refused rename. */
  function SplitDiff(env: Env, diff: string): Result<Split, ()> {
    if AnyCrosses(env, TextBlocks(env.tokens, diff)) then Err(())
    else
      var test := BlocksIn(env, diff, Test);
      var tests := Destinations(env, Keep(test, InTestRole(env, true)));
      var support := Destinations(env, Keep(test, InTestRole(env, false)));
      Ok(Split(Concat(Flatten(BlocksIn(env, diff, Prod))), Concat(Flatten(test)),
               Destinations(env, BlocksIn(env, diff, Prod)), tests + support, support,
               Destinations(env, BlocksIn(env, diff, Excluded)), Touched(env, TextBlocks(env.tokens, diff))))
  }

  // ---------- the methods ----------

  lemma LastCrosses(env: Env, closed: seq<Block>, current: Block)
    requires Crosses(env, current)
    ensures AnyCrosses(env, closed + [current])
  {
    assert (closed + [current])[|closed|] == current;
  }

  lemma NoneCrosses(env: Env, closed: seq<Block>, current: Block)
    requires !AnyCrosses(env, closed) && !Crosses(env, current)
    ensures !AnyCrosses(env, closed + [current])
  {
  }

  /** Closing a block: a rename across the test boundary is refused, a new destination is listed. */
  method CloseBlock(env: Env, closed: seq<Block>, touched: seq<string>, current: Block)
    returns (next: Option<(seq<Block>, seq<string>)>)
    requires !AnyCrosses(env, closed) && touched == Touched(env, closed)
    ensures next == None <==> current != [] && Crosses(env, current)
    ensures next.Some? ==>
        && next.value.0 == (if current == [] then closed else closed + [current])
        && next.value.1 == Touched(env, next.value.0) && !AnyCrosses(env, next.value.0)
  {
    if current == [] {
      return Some((closed, touched));
    }
    if Crosses(env, current) {
      return None;
    }
    NoneCrosses(env, closed, current);
    assert (closed + [current])[..|closed|] == closed;
    var path := Destination(env, current);
    next := Some((closed + [current], if path in touched then touched else touched + [path]));
  }

  lemma CutNext(tokens: Tokens, lines: seq<string>, i: nat, closed: seq<Block>, current: Block)
    requires i < |lines| && Cut(tokens, lines[..i], closed, current)
    ensures IsHeader(tokens, lines[i]) ==>
              Cut(tokens, lines[..i + 1], if current == [] then closed else closed + [current], [lines[i]])
    ensures !IsHeader(tokens, lines[i]) ==>
              Cut(tokens, lines[..i + 1], closed, if current == [] then [] else current + [lines[i]])
  {
    assert lines[..i + 1] == lines[..i] + [lines[i]];
    if IsHeader(tokens, lines[i]) {
      CutHeader(tokens, lines[..i], closed, current, lines[i]);
    } else {
      CutLine(tokens, lines[..i], closed, current, lines[i]);
    }
  }

  /** `_split_diff_files`: one pass over the lines, closing a block at each header and at the end. */
  method SplitDiffFiles(env: Env, diff: string) returns (r: Result<(seq<Block>, seq<string>), ()>)
    ensures r == if AnyCrosses(env, TextBlocks(env.tokens, diff)) then Err(())
                 else Ok((TextBlocks(env.tokens, diff), Touched(env, TextBlocks(env.tokens, diff))))
  {
    var lines := SplitLines(diff);
    var closed: seq<Block>, touched: seq<string>, current: Block := [], [], [];
    for i := 0 to |lines|
      invariant Cut(env.tokens, lines[..i], closed, current)
      invariant !AnyCrosses(env, closed) && touched == Touched(env, closed)
    {
      CutNext(env.tokens, lines, i, closed, current);
      if IsHeader(env.tokens, lines[i]) {
        var next := CloseBlock(env, closed, touched, current);
        if next == None {
          CrossingStays(env, lines, i, closed, current);
          return Err(());
        }
        closed, touched, current := next.value.0, next.value.1, [lines[i]];
      } else {
        current := if current == [] then [] else current + [lines[i]];
      }
    }
    assert lines[..|lines|] == lines;
    var all := CloseBlock(env, closed, touched, current);
    if all == None {
      LastCrosses(env, closed, current);
      return Err(());
    }
    r := Ok(all.value);
  }

  /** A block that a header has closed stays as it is to the end. */
  lemma {:induction false} ClosedBlocksStay(tokens: Tokens, lines: seq<string>, n: nat, k: nat)
    requires n < |lines| && IsHeader(tokens, lines[n]) && k < |Blocks(tokens, lines[..n])|
    ensures k < |Blocks(tokens, lines)| - 1 && Blocks(tokens, lines)[k] == Blocks(tokens, lines[..n])[k]
  {
    var m := |lines| - 1;
    if n < m {
      assert lines[..m][..n] == lines[..n];
      ClosedBlocksStay(tokens, lines[..m], n, k);
    }
  }

  lemma CrossingStays(env: Env, lines: seq<string>, n: nat, closed: seq<Block>, current: Block)
    requires n < |lines| && IsHeader(env.tokens, lines[n]) && Cut(env.tokens, lines[..n], closed, current)
    requires current != [] && Crosses(env, current)
    ensures AnyCrosses(env, Blocks(env.tokens, lines))
  {
    assert Blocks(env.tokens, lines[..n])[|closed|] == current;
    ClosedBlocksStay(env.tokens, lines, n, |closed|);
  }

  /** The lists `split_prod_and_test` fills. */
  datatype Piles = Piles(prod: seq<Block>, test: seq<Block>, prodFiles: seq<string>, testFiles: seq<string>,
                         supportFiles: seq<string>, excludedFiles: seq<string>)

  ghost predicate ArePiles(env: Env, blocks: seq<Block>, withSupport: bool, p: Piles) {
    && p.prod == Keep(blocks, InBucket(env, withSupport, Prod))
    && p.test == Keep(blocks, InBucket(env, withSupport, Test))
    && p.prodFiles == Destinations(env, p.prod)
    && p.testFiles == Destinations(env, Keep(p.test, InTestRole(env, true)))
    && p.supportFiles == Destinations(env, Keep(p.test, InTestRole(env, false)))
    && p.excludedFiles == Destinations(env, Keep(blocks, InBucket(env, withSupport, Excluded)))
  }

  /** One file chunk goes onto its pile. */
  function Pile(env: Env, b: Block, withSupport: bool, p: Piles): Piles {
    var path := Destination(env, b);
    match BucketOf(env, b, withSupport)
    case Excluded => p.(excludedFiles := p.excludedFiles + [path])
    case Test =>
      if RoleOf(env, b) == "test" then p.(test := p.test + [b], testFiles := p.testFiles + [path])
      else p.(test := p.test + [b], supportFiles := p.supportFiles + [path])
    case Prod => p.(prod := p.prod + [b], prodFiles := p.prodFiles + [path])
  }

  lemma PileStep(env: Env, blocks: seq<Block>, withSupport: bool, p: Piles)
    requires blocks != [] && ArePiles(env, blocks[..|blocks| - 1], withSupport, p)
    ensures ArePiles(env, blocks, withSupport, Pile(env, blocks[|blocks| - 1], withSupport, p))
  {
    var before, b := blocks[..|blocks| - 1], blocks[|blocks| - 1];
    match BucketOf(env, b, withSupport)
    case Excluded =>
      DestinationsAppend(env, Keep(before, InBucket(env, withSupport, Excluded)), b);
    case Prod =>
      DestinationsAppend(env, p.prod, b);
    case Test =>
      TestPile(env, p.test, b);
  }

  lemma PileNext(env: Env, blocks: seq<Block>, i: nat, withSupport: bool, p: Piles)
    requires i < |blocks| && ArePiles(env, blocks[..i], withSupport, p)
    ensures ArePiles(env, blocks[..i + 1], withSupport, Pile(env, blocks[i], withSupport, p))
  {
    assert blocks[..i + 1][..i] == blocks[..i];
    PileStep(env, blocks[..i + 1], withSupport, p);
  }

  lemma TestPile(env: Env, test: seq<Block>, b: Block)
    ensures var isTest := RoleOf(env, b) == "test";
      && Destinations(env, Keep(test + [b], InTestRole(env, isTest)))
         == Destinations(env, Keep(test, InTestRole(env, isTest))) + [Destination(env, b)]
      && Keep(test + [b], InTestRole(env, !isTest)) == Keep(test, InTestRole(env, !isTest))
  {
    assert (test + [b])[..|test|] == test;
    DestinationsAppend(env, Keep(test, InTestRole(env, RoleOf(env, b) == "test")), b);
  }

  method SplitProdAndTest(env: Env, diff: string) returns (r: Result<Split, ()>)
    ensures r == SplitDiff(env, diff)
  {
    var files := SplitDiffFiles(env, diff);
    if files.Err? {
      return Err(());
    }
    var (blocks, touched) := files.value;
    var p := SortIntoPiles(env, blocks, HasTest(env, blocks));
    r := Ok(Split(Concat(Flatten(p.prod)), Concat(Flatten(p.test)), p.prodFiles, p.testFiles + p.supportFiles,
                  p.supportFiles, p.excludedFiles, touched));
  }

  /** The loop over the file blocks. */
  method SortIntoPiles(env: Env, blocks: seq<Block>, withSupport: bool) returns (p: Piles)
    ensures ArePiles(env, blocks, withSupport, p)
  {
    p := Piles([], [], [], [], [], []);
    for i := 0 to |blocks|
      invariant ArePiles(env, blocks[..i], withSupport, p)
    {
      PileNext(env, blocks, i, withSupport, p);
      p := Pile(env, blocks[i], withSupport, p);
    }
    assert blocks[..|blocks|] == blocks;
  }

  lemma DestinationsAppend(env: Env, blocks: seq<Block>, b: Block)
    ensures Destinations(env, blocks + [b]) == Destinations(env, blocks) + [Destination(env, b)]
  {
    assert (blocks + [b])[..|blocks|] == blocks;
  }

  // ---------- main results ----------

  lemma {:induction false} ThreeWays(env: Env, blocks: seq<Block>, withSupport: bool, line: string)
    ensures multiset(Flatten(blocks))[line]
         == multiset(Flatten(Keep(blocks, InBucket(env, withSupport, Prod))))[line]
          + multiset(Flatten(Keep(blocks, InBucket(env, withSupport, Test))))[line]
          + multiset(Flatten(Keep(blocks, InBucket(env, withSupport, Excluded))))[line]
  {
    if blocks != [] {
      var n := |blocks| - 1;
      ThreeWays(env, blocks[..n], withSupport, line);
      FlattenAppend(Keep(blocks[..n], InBucket(env, withSupport, Prod)), blocks[n]);
      FlattenAppend(Keep(blocks[..n], InBucket(env, withSupport, Test)), blocks[n]);
      FlattenAppend(Keep(blocks[..n], InBucket(env, withSupport, Excluded)), blocks[n]);
    }
  }

  lemma PartsMakeWhole(env: Env, blocks: seq<Block>, withSupport: bool)
    ensures multiset(Flatten(blocks))
         == multiset(Flatten(Keep(blocks, InBucket(env, withSupport, Prod))))
          + multiset(Flatten(Keep(blocks, InBucket(env, withSupport, Test))))
          + multiset(Flatten(Keep(blocks, InBucket(env, withSupport, Excluded))))
  {
    forall line: string {
      ThreeWays(env, blocks, withSupport, line);
    }
  }

  lemma PartsReadBack(env: Env, diff: string)
    requires SplitDiff(env, diff).Ok?
    ensures var s := SplitDiff(env, diff).value;
      TextBlocks(env.tokens, s.prod) == BlocksIn(env, diff, Prod)
          && TextBlocks(env.tokens, s.test) == BlocksIn(env, diff, Test)
  {
    var withSupport := HasTest(env, TextBlocks(env.tokens, diff));
    SelectionReadsBack(env.tokens, diff, InBucket(env, withSupport, Prod));
    SelectionReadsBack(env.tokens, diff, InBucket(env, withSupport, Test));
  }

  /** Splitting is lossless: the three parts are order-preserving selections of the file blocks, and together
      they hold every line from the first header on exactly once. */
  lemma SplitIsLossless(env: Env, diff: string)
    requires SplitDiff(env, diff).Ok?
    ensures var s := SplitDiff(env, diff).value;
      var prod, test, excluded := BlocksIn(env, diff, Prod), BlocksIn(env, diff, Test), BlocksIn(env, diff, Excluded);
      && TextBlocks(env.tokens, s.prod) == prod && TextBlocks(env.tokens, s.test) == test
      && Flatten(TextBlocks(env.tokens, diff)) == FromHeader(env.tokens, SplitLines(diff))
      && multiset(FromHeader(env.tokens, SplitLines(diff)))
         == multiset(Flatten(prod)) + multiset(Flatten(test)) + multiset(Flatten(excluded))
  {
    var blocks := TextBlocks(env.tokens, diff);
    PartsReadBack(env, diff);
    BlocksHoldLines(env.tokens, SplitLines(diff));
    PartsMakeWhole(env, blocks, HasTest(env, blocks));
  }

  lemma NoCrossingKept(env: Env, blocks: seq<Block>, p: Block -> bool)
    requires !AnyCrosses(env, blocks)
    ensures !AnyCrosses(env, Keep(blocks, p))
  {
    var kept := Keep(blocks, p);
    KeepContents(blocks, p);
    forall i | 0 <= i < |kept| ensures !Crosses(env, kept[i]) {
      assert kept[i] in kept;
      var j :| 0 <= j < |blocks| && blocks[j] == kept[i];
    }
  }

  /** A text whose blocks all fall into one bucket is that bucket's part, and the other parts are empty. */
  lemma SplitOfOneBucket(env: Env, part: seq<Block>, bucket: Bucket)
    requires TextBlocks(env.tokens, Concat(Flatten(part))) == part && !AnyCrosses(env, part)
    requires forall b | b in part :: BucketOf(env, b, HasTest(env, part)) == bucket
    ensures forall other :: BlocksIn(env, Concat(Flatten(part)), other) == if other == bucket then part else []
    ensures SplitDiff(env, Concat(Flatten(part))).Ok?
  {
    KeepAll(part, InBucket(env, HasTest(env, part), bucket));
    forall other | other != bucket ensures BlocksIn(env, Concat(Flatten(part)), other) == [] {
      KeepNone(part, InBucket(env, HasTest(env, part), other));
    }
  }

  lemma PartOfOneBucket(env: Env, diff: string, bucket: Bucket)
    requires SplitDiff(env, diff).Ok?
    ensures var blocks := TextBlocks(env.tokens, diff);
      !AnyCrosses(env, BlocksIn(env, diff, bucket))
      && forall b | b in BlocksIn(env, diff, bucket) :: b in blocks && BucketOf(env, b, HasTest(env, blocks)) == bucket
  {
    var blocks := TextBlocks(env.tokens, diff);
    NoCrossingKept(env, blocks, InBucket(env, HasTest(env, blocks), bucket));
    KeepContents(blocks, InBucket(env, HasTest(env, blocks), bucket));
  }

  /** Production text splits into itself and nothing else. */
  lemma ProdIsStable(env: Env, diff: string)
    requires SplitDiff(env, diff).Ok?
    ensures var prod := SplitDiff(env, diff).value.prod;
      && SplitDiff(env, prod).Ok? && SplitDiff(env, prod).value.prod == prod && SplitDiff(env, prod).value.test == ""
      && SplitDiff(env, prod).value.excludedFiles == []
  {
    var prod := BlocksIn(env, diff, Prod);
    PartsReadBack(env, diff);
    PartOfOneBucket(env, diff, Prod);
    NoTestInProd(env, prod, HasTest(env, TextBlocks(env.tokens, diff)));
    SplitOfOneBucket(env, prod, Prod);
  }

  lemma NoTestInProd(env: Env, prod: seq<Block>, withSupport: bool)
    requires forall b | b in prod :: BucketOf(env, b, withSupport) == Prod
    ensures !HasTest(env, prod) && forall b | b in prod :: BucketOf(env, b, false) == Prod
  {
    assert forall i | 0 <= i < |prod| :: prod[i] in prod;
  }

  /** Test text splits into itself and nothing else: support files stay with the tests, since a non-empty test
      part always holds a proper test file. */
  lemma TestIsStable(env: Env, diff: string)
    requires SplitDiff(env, diff).Ok?
    ensures var test := SplitDiff(env, diff).value.test;
      && SplitDiff(env, test).Ok? && SplitDiff(env, test).value.test == test && SplitDiff(env, test).value.prod == ""
      && SplitDiff(env, test).value.excludedFiles == []
  {
    PartsReadBack(env, diff);
    TestPartIsTest(env, diff);
    SplitOfOneBucket(env, BlocksIn(env, diff, Test), Test);
  }

  lemma TestPartIsTest(env: Env, diff: string)
    requires SplitDiff(env, diff).Ok?
    ensures var test := BlocksIn(env, diff, Test);
      !AnyCrosses(env, test) && forall b | b in test :: BucketOf(env, b, HasTest(env, test)) == Test
  {
    var test := BlocksIn(env, diff, Test);
    PartOfOneBucket(env, diff, Test);
    TestPartHasTest(env, TextBlocks(env.tokens, diff), test);
    assert forall b | b in test :: test != [];
  }

  lemma TestPartHasTest(env: Env, blocks: seq<Block>, test: seq<Block>)
    requires test == Keep(blocks, InBucket(env, HasTest(env, blocks), Test))
    ensures test != [] ==> HasTest(env, blocks) && HasTest(env, test)
  {
    KeepContents(blocks, InBucket(env, HasTest(env, blocks), Test));
    if test != [] {
      assert test[0] in test;
      TestBlockExists(env, blocks, test[0]);
      var j :| 0 <= j < |blocks| && RoleOf(env, blocks[j]) == "test";
      assert blocks[j] in blocks;
      assert blocks[j] in test;
    }
  }

  lemma TestBlockExists(env: Env, blocks: seq<Block>, b: Block)
    requires b in blocks && BucketOf(env, b, HasTest(env, blocks)) == Test
    ensures HasTest(env, blocks)
  {
    var j :| 0 <= j < |blocks| && blocks[j] == b;
  }
}
