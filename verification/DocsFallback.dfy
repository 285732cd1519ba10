/** The documentation context when no query hit anything: whole files, at most eight of them
    (src/ai_push_hooks/modules/docs.py, `_fallback_docs_context`). */
module DocsFallback {

  import opened Options
  import opened DocsSearch
  import opened Strings

  const BLOCK_SEPARATOR: string := "\n\n"

  function Block(relative: string, content: string): string {
    "--- " + relative + " ---\n" + content
  }

  ghost function Blocks(files: seq<string>, content: string -> string): (blocks: seq<string>)
    ensures |blocks| == if |files| < DOC_FALLBACK_FILE_LIMIT then |files| else DOC_FALLBACK_FILE_LIMIT
    ensures forall i | 0 <= i < |blocks| :: blocks[i] == "--- " + files[i] + " ---\n" + content(files[i])
  {
    seq(if |files| < DOC_FALLBACK_FILE_LIMIT then |files| else DOC_FALLBACK_FILE_LIMIT,
        i requires 0 <= i < |files| => Block(files[i], content(files[i])))
  }

  /** Block k is taken after blocks ..k: its own length fits in what they leave.  The separator in
      front of it is not counted. */
  ghost predicate Fits(blocks: seq<string>, k: nat)
    requires k < |blocks|
  {
    |Join(blocks[..k], BLOCK_SEPARATOR)| + |blocks[k]| <= DOC_CONTEXT_BUDGET
  }

  /** n is where taking stops: every earlier block fits and block n, if there is one, does not. */
  ghost predicate TakesBlocks(blocks: seq<string>, n: nat) {
    && n <= |blocks|
    && (forall k | 0 <= k < n :: Fits(blocks, k))
    && (n < |blocks| ==> !Fits(blocks, n))
  }

  /** The first n blocks; a very first block that is too long is cut instead of dropped. */
  ghost function RenderBlocks(blocks: seq<string>, n: nat): string
    requires TakesBlocks(blocks, n)
  {
    if n == 0 && blocks != [] && |blocks[0]| > DOC_CONTEXT_BUDGET then blocks[0][..DOC_CONTEXT_BUDGET]
    else Join(blocks[..n], BLOCK_SEPARATOR)
  }

  ghost predicate FallbackText(blocks: seq<string>, text: string) {
    exists n: nat :: TakesBlocks(blocks, n) && text == RenderBlocks(blocks, n)
  }

  lemma JoinTakeSnoc(blocks: seq<string>, k: nat)
    requires k < |blocks|
    ensures Join(blocks[..k + 1], BLOCK_SEPARATOR)
         == if k == 0 then blocks[0] else Join(blocks[..k], BLOCK_SEPARATOR) + BLOCK_SEPARATOR + blocks[k]
  {
    assert blocks[..k + 1] == blocks[..k] + [blocks[k]];
    JoinSnoc(blocks[..k], blocks[k], BLOCK_SEPARATOR);
  }

  /** Joining k + 1 blocks is at least two characters longer than joining k of them and the block. */
  lemma {:induction false} JoinGrows(blocks: seq<string>, j: nat, k: nat)
    requires j < k <= |blocks|
    ensures |Join(blocks[..j], BLOCK_SEPARATOR)| + |blocks[j]| <= |Join(blocks[..k], BLOCK_SEPARATOR)|
    ensures j + 1 < k ==>
              |Join(blocks[..j], BLOCK_SEPARATOR)| + |blocks[j]| + 2 <= |Join(blocks[..k], BLOCK_SEPARATOR)|
    ensures 0 < j ==>
              |Join(blocks[..j], BLOCK_SEPARATOR)| + |blocks[j]| + 2 <= |Join(blocks[..k], BLOCK_SEPARATOR)|
    decreases k
  {
    JoinTakeSnoc(blocks, k - 1);
    if j >= k - 1 {
    } else {
      JoinGrows(blocks, j, k - 1);
    }
  }

  /** The uncounted separator costs at most its own two characters. */
  lemma FallbackBound(blocks: seq<string>, text: string)
    requires FallbackText(blocks, text)
    ensures |text| <= DOC_CONTEXT_BUDGET + |BLOCK_SEPARATOR|
  {
    var n: nat :| TakesBlocks(blocks, n) && text == RenderBlocks(blocks, n);
    if n > 0 {
      JoinTakeSnoc(blocks, n - 1);
      assert Fits(blocks, n - 1);
    }
  }

  /** The rendered length passes the budget, by at most the separator, at block k > 0. */
  ghost predicate Overruns(blocks: seq<string>, k: nat)
    requires k < |blocks|
  {
    && 0 < k
    && DOC_CONTEXT_BUDGET < |Join(blocks[..k + 1], BLOCK_SEPARATOR)| <= DOC_CONTEXT_BUDGET + |BLOCK_SEPARATOR|
  }

  /** The fallback exceeds the budget exactly when some prefix of the blocks overruns it. */
  lemma FallbackExceedsExactly(blocks: seq<string>, text: string)
    requires FallbackText(blocks, text)
    ensures |text| > DOC_CONTEXT_BUDGET <==> exists k | 0 <= k < |blocks| :: Overruns(blocks, k)
  {
    var n: nat :| TakesBlocks(blocks, n) && text == RenderBlocks(blocks, n);
    if |text| > DOC_CONTEXT_BUDGET {
      FallbackBound(blocks, text);
      assert Fits(blocks, n - 1);
      JoinTakeSnoc(blocks, n - 1);
      assert Overruns(blocks, n - 1);
    }
    if k: nat :| k < |blocks| && Overruns(blocks, k) {
      forall j | 0 <= j <= k ensures Fits(blocks, j) {
        JoinGrows(blocks, j, k + 1);
      }
      assert n > k;
      if n > k + 1 {
        assert Fits(blocks, k + 1);
      }
    }
  }

  /** Two files are enough to exceed the budget by two characters. */
  lemma FallbackOverrunExists()
    ensures var content := (path: string) => seq(15982, _ => 'a');
            exists text :: FallbackText(Blocks(["README.md", "docs/a.md"], content), text)
                           && |text| == DOC_CONTEXT_BUDGET + 2
  {
    var content := (path: string) => seq(15982, _ => 'a');
    var blocks := Blocks(["README.md", "docs/a.md"], content);
    assert |blocks[0]| == 16000 && |blocks[1]| == 16000;
    assert blocks[..0] == [] && blocks[..1] == [blocks[0]];
    assert Fits(blocks, 0) && Fits(blocks, 1);
    JoinTakeSnoc(blocks, 1);
    assert TakesBlocks(blocks, 2);
    assert FallbackText(blocks, RenderBlocks(blocks, 2));
  }

  /** `contents` holds the text already read during the search, when there is one. */
  method FallbackContext(files: seq<string>, content: string -> string, contents: Option<map<string, string>>)
    returns (text: string)
    requires contents.Some? ==>
               forall i | 0 <= i < |files| && i < DOC_FALLBACK_FILE_LIMIT ::
                 files[i] in contents.value && contents.value[files[i]] == content(files[i])
    ensures FallbackText(Blocks(files, content), text)
    ensures |text| <= DOC_CONTEXT_BUDGET + 2
  {
    ghost var blocks := Blocks(files, content);
    var snippets: seq<string> := [];
    var limit := if |files| < DOC_FALLBACK_FILE_LIMIT then |files| else DOC_FALLBACK_FILE_LIMIT;
    var n := 0;
    while n < limit
      invariant n <= limit && snippets == blocks[..n]
      invariant forall k | 0 <= k < n :: Fits(blocks, k)
    {
      var text := if contents.None? then content(files[n]) else contents.value[files[n]];
      var block := Block(files[n], text);
      var currentSize := |Join(snippets, BLOCK_SEPARATOR)|;
      var remaining := DOC_CONTEXT_BUDGET - currentSize;
      if |block| > remaining {
        assert !Fits(blocks, n);
        if snippets == [] && remaining > 0 {
          snippets := [block[..remaining]];
        }
        break;
      }
      snippets := snippets + [block];
      n := n + 1;
    }
    text := Join(snippets, BLOCK_SEPARATOR);
    assert TakesBlocks(blocks, n) && text == RenderBlocks(blocks, n);
    FallbackBound(blocks, text);
  }
}
