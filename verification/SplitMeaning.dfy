/** Which files go where when a diff is split (repogauge/export/split_patch.py), by the role and the name of the path
    a file block ends up at. */
module SplitMeaning {
  import opened Wrappers
  import opened Text
  import opened DiffBlocks
  import opened SplitPatch

  // ---------- a block's path ----------

  ghost predicate LastLineWith(lines: seq<string>, prefix: string, i: int) {
    0 <= i < |lines| && prefix <= lines[i] && forall j | i < j < |lines| :: !(prefix <= lines[j])
  }

  lemma {:induction false} LastValueMeans(lines: seq<string>, prefix: string, i: nat)
    requires LastLineWith(lines, prefix, i)
    ensures LastValue(lines, prefix) == Strip(lines[i][|prefix|..])
  {
    var n := |lines| - 1;
    if i < n {
      assert LastLineWith(lines[..n], prefix, i);
      LastValueMeans(lines[..n], prefix, i);
    }
  }

  /** A plain file goes by its new path, a deleted one by its old path, a renamed one by the path of its last
      `rename to` line. */
  lemma DestinationMeans(env: Env, b: Block, from: string, to: string)
    requires IsBlock(env.tokens, b) && env.tokens(b[0]) == Some((from, to))
    ensures (forall i | 0 <= i < |b| :: !("rename to " <= b[i])) ==>
      && (env.clean(to) != "" && env.clean(to) != "/dev/null" ==> Destination(env, b) == env.clean(to))
      && (env.clean(to) == "/dev/null" && from != "/dev/null" ==> Destination(env, b) == from)
    ensures forall i | LastLineWith(b, "rename to ", i) :: var name := Strip(b[i][10..]);
      name != "" && env.clean(name) != "" && env.clean(name) != "/dev/null" ==> Destination(env, b) == env.clean(name)
  {
    if i :| LastLineWith(b, "rename to ", i) {
      LastValueMeans(b, RENAME_TO, i);
      assert forall j :: LastLineWith(b, "rename to ", j) ==> j == i;
    } else {
      if LastValue(b, RENAME_TO) != "" {
        LastLineExists(b, RENAME_TO);
      }
    }
  }

  // ---------- refusals ----------

  predicate OnTestSide(env: Env, path: string) {
    || env.role(path) == "test" || env.role(path) == "test_support"
    || env.name(path) == "conftest.py" || env.name(path) == "pytest.ini" || env.name(path) == "tox.ini"
  }

  /** The last `rename from` and `rename to` lines of the block name files on different sides. */
  ghost predicate MovesAcross(env: Env, b: Block) {
    exists i, j :: LastLineWith(b, "rename from ", i) && LastLineWith(b, "rename to ", j) && Across(env, b[i], b[j])
  }

  predicate Across(env: Env, from: string, to: string)
    requires |from| >= 12 && |to| >= 10
  {
    && Strip(from[12..]) != "" && Strip(to[10..]) != ""
    && OnTestSide(env, env.clean(Strip(from[12..]))) != OnTestSide(env, env.clean(Strip(to[10..])))
  }

  lemma {:induction false} LastLineExists(lines: seq<string>, prefix: string)
    requires LastValue(lines, prefix) != ""
    ensures exists i :: LastLineWith(lines, prefix, i)
  {
    var n := |lines| - 1;
    if prefix <= lines[n] {
      assert LastLineWith(lines, prefix, n);
    } else {
      LastLineExists(lines[..n], prefix);
      var i :| LastLineWith(lines[..n], prefix, i);
      assert LastLineWith(lines, prefix, i);
    }
  }

  lemma CrossesMeans(env: Env, b: Block)
    ensures Crosses(env, b) <==> MovesAcross(env, b)
  {
    if i, j :| LastLineWith(b, RENAME_FROM, i) && LastLineWith(b, RENAME_TO, j) {
      LastValueMeans(b, RENAME_FROM, i);
      LastValueMeans(b, RENAME_TO, j);
      assert Crosses(env, b) <==> Across(env, b[i], b[j]);
      assert forall k :: LastLineWith(b, RENAME_FROM, k) ==> k == i;
      assert forall k :: LastLineWith(b, RENAME_TO, k) ==> k == j;
    } else if Crosses(env, b) {
      LastLineExists(b, RENAME_FROM);
      LastLineExists(b, RENAME_TO);
    }
  }

  /** A diff is refused iff some block renames a file from one side of the test boundary to the other. */
  lemma RefusedIff(env: Env, diff: string)
    ensures SplitDiff(env, diff).Err? <==> exists b :: b in TextBlocks(env.tokens, diff) && MovesAcross(env, b)
  {
    var blocks := TextBlocks(env.tokens, diff);
    forall b: Block {
      CrossesMeans(env, b);
    }
    if b :| b in blocks && MovesAcross(env, b) {
      var i :| 0 <= i < |blocks| && blocks[i] == b;
    }
    assert forall i | 0 <= i < |blocks| :: blocks[i] in blocks;
  }

  // ---------- the parts ----------

  predicate Dropped(env: Env, path: string) {
    env.role(path) == "docs" || env.role(path) == "generated_vendor"
  }

  /** Support files: by role, or by name whatever the role. */
  predicate Support(env: Env, path: string) {
    || env.role(path) == "test_support"
    || env.name(path) == "conftest.py" || env.name(path) == "pytest.ini" || env.name(path) == "tox.ini"
  }

  ghost predicate HoldsTest(env: Env, blocks: seq<Block>) {
    exists b :: b in blocks && env.role(Destination(env, b)) == "test"
  }

  /** Where a path belongs, in a diff with or without a test file. */
  function Side(env: Env, path: string, hasTest: bool): Bucket {
    if Dropped(env, path) then Excluded
    else if env.role(path) == "test" || (Support(env, path) && hasTest) then Test
    else Prod
  }

  lemma HasTestMeans(env: Env, blocks: seq<Block>)
    ensures HasTest(env, blocks) <==> HoldsTest(env, blocks)
  {
    assert forall i | 0 <= i < |blocks| :: blocks[i] in blocks;
    if b :| b in blocks && env.role(Destination(env, b)) == "test" {
      var i :| 0 <= i < |blocks| && blocks[i] == b;
      assert RoleOf(env, blocks[i]) == "test";
    }
  }

  lemma BucketIs(env: Env, blocks: seq<Block>, b: Block)
    ensures BucketOf(env, b, HasTest(env, blocks)) == Side(env, Destination(env, b), HoldsTest(env, blocks))
  {
    HasTestMeans(env, blocks);
  }

  lemma InPart(env: Env, diff: string, b: Block)
    requires SplitDiff(env, diff).Ok?
    ensures var s := SplitDiff(env, diff).value; var blocks := TextBlocks(env.tokens, diff);
      var side := Side(env, Destination(env, b), HoldsTest(env, blocks));
      && (b in TextBlocks(env.tokens, s.prod) <==> b in blocks && side == Prod)
      && (b in TextBlocks(env.tokens, s.test) <==> b in blocks && side == Test)
  {
    var blocks := TextBlocks(env.tokens, diff);
    PartsReadBack(env, diff);
    BucketIs(env, blocks, b);
    KeepContents(blocks, InBucket(env, HasTest(env, blocks), Prod));
    KeepContents(blocks, InBucket(env, HasTest(env, blocks), Test));
  }

  /** Documentation and generated files are in neither text; tests are in the test text; support files are in the test
      text if the diff holds a test, else in the production text; all other files are in the production text. */
  lemma PartsByRole(env: Env, diff: string, b: Block)
    requires SplitDiff(env, diff).Ok?
    ensures var s := SplitDiff(env, diff).value; var blocks := TextBlocks(env.tokens, diff);
      var path := Destination(env, b); var role := env.role(path);
      var inProd, inTest := b in TextBlocks(env.tokens, s.prod), b in TextBlocks(env.tokens, s.test);
      && (inProd || inTest ==> b in blocks)
      && (role == "docs" || role == "generated_vendor" ==> !inProd && !inTest)
      && (role == "test" ==> (inTest <==> b in blocks) && !inProd)
      && (role != "docs" && role != "generated_vendor" && role != "test" ==>
            if Support(env, path) && HoldsTest(env, blocks) then (inTest <==> b in blocks) && !inProd
            else (inProd <==> b in blocks) && !inTest)
  {
    InPart(env, diff, b);
  }

  // ---------- the path lists ----------

  ghost predicate Lands(env: Env, blocks: seq<Block>, path: string) {
    exists b :: b in blocks && Destination(env, b) == path
  }

  lemma {:induction false} DestinationsContents(env: Env, blocks: seq<Block>, path: string)
    ensures path in Destinations(env, blocks) <==> Lands(env, blocks, path)
  {
    if blocks != [] {
      DestinationsContents(env, blocks[..|blocks| - 1], path);
      LandsAppend(env, blocks[..|blocks| - 1], blocks[|blocks| - 1], path);
      assert blocks == blocks[..|blocks| - 1] + [blocks[|blocks| - 1]];
    }
  }

  lemma LandsAppend(env: Env, blocks: seq<Block>, b: Block, path: string)
    ensures Lands(env, blocks + [b], path) <==> Lands(env, blocks, path) || Destination(env, b) == path
  {
    assert b in blocks + [b];
    assert forall c :: c in blocks + [b] <==> c in blocks || c == b;
  }

  lemma {:induction false} TouchedContents(env: Env, blocks: seq<Block>, path: string)
    ensures multiset(Touched(env, blocks))[path] == if Lands(env, blocks, path) then 1 else 0
  {
    if blocks != [] {
      var before := Touched(env, blocks[..|blocks| - 1]);
      TouchedContents(env, blocks[..|blocks| - 1], path);
      LandsAppend(env, blocks[..|blocks| - 1], blocks[|blocks| - 1], path);
      assert blocks == blocks[..|blocks| - 1] + [blocks[|blocks| - 1]];
      assert path in before <==> path in multiset(before);
    }
  }

  /** Keeping blocks by a test that depends only on where they land. */
  lemma LandsKept(env: Env, blocks: seq<Block>, p: Block -> bool, path: string, ok: bool)
    requires forall b | b in blocks && Destination(env, b) == path :: p(b) == ok
    ensures Lands(env, Keep(blocks, p), path) <==> Lands(env, blocks, path) && ok
  {
    KeepContents(blocks, p);
    if b :| b in blocks && Destination(env, b) == path {
      assert ok ==> b in Keep(blocks, p);
    }
  }

  lemma PartFiles(env: Env, blocks: seq<Block>, bucket: Bucket, path: string)
    ensures var part := Keep(blocks, InBucket(env, HasTest(env, blocks), bucket));
      path in Destinations(env, part)
      <==> Lands(env, blocks, path) && Side(env, path, HoldsTest(env, blocks)) == bucket
  {
    var p := InBucket(env, HasTest(env, blocks), bucket);
    forall b | b in blocks && Destination(env, b) == path
      ensures p(b) == (Side(env, path, HoldsTest(env, blocks)) == bucket)
    {
      BucketIs(env, blocks, b);
    }
    LandsKept(env, blocks, p, path, Side(env, path, HoldsTest(env, blocks)) == bucket);
    DestinationsContents(env, Keep(blocks, p), path);
  }

  lemma TestFiles(env: Env, blocks: seq<Block>, isTest: bool, path: string)
    ensures var test := Keep(blocks, InBucket(env, HasTest(env, blocks), Test));
      path in Destinations(env, Keep(test, InTestRole(env, isTest)))
      <==> path in Destinations(env, test) && (env.role(path) == "test") == isTest
  {
    var test := Keep(blocks, InBucket(env, HasTest(env, blocks), Test));
    LandsKept(env, test, InTestRole(env, isTest), path, (env.role(path) == "test") == isTest);
    DestinationsContents(env, Keep(test, InTestRole(env, isTest)), path);
    DestinationsContents(env, test, path);
  }

  /** The lists name the paths of their parts; test files come before support files, and every path of the diff is
      listed once among all. */
  lemma ListsMean(env: Env, diff: string, path: string)
    requires SplitDiff(env, diff).Ok?
    ensures var s := SplitDiff(env, diff).value; var blocks := TextBlocks(env.tokens, diff);
      var listed := Lands(env, blocks, path); var side := Side(env, path, HoldsTest(env, blocks));
      && (path in s.prodFiles <==> listed && side == Prod)
      && (path in s.excludedFiles <==> listed && side == Excluded)
      && (path in s.testFiles <==> listed && side == Test)
      && (path in s.supportFiles <==> listed && side == Test && env.role(path) != "test")
      && |s.supportFiles| <= |s.testFiles| && s.testFiles[|s.testFiles| - |s.supportFiles|..] == s.supportFiles
      && multiset(s.allFiles)[path] == if listed then 1 else 0
  {
    var blocks := TextBlocks(env.tokens, diff);
    TouchedContents(env, blocks, path);
    PartFiles(env, blocks, Prod, path);
    PartFiles(env, blocks, Excluded, path);
    PartFiles(env, blocks, Test, path);
    TestFiles(env, blocks, true, path);
    TestFiles(env, blocks, false, path);
  }
}
