/**
 The receipt directory as files. Receipts are written in place, so a write may stop after any number
 of characters and leave a file that is no receipt.
 */
module ReceiptFiles {
  import opened Wrappers
  import opened ReceiptText
  import opened ReceiptChain

  /** The text of every file, by name. */
  type Files = map<string, string>

  /** What a reader makes of the files. */
  function View(files: Files): Directory { map name | name in files :: Reading(files[name]) }

  /** The files after an append to a chain of `n` receipts that stops after `k` characters. */
  function Stopped(files: Files, n: nat, r: Receipt, k: nat): Files
    requires k <= |Text(r)|
  {
    files[NameOf(n + 1, r.action) := Text(r)[..k]]
  }

  lemma ViewOfStopped(files: Files, n: nat, r: Receipt, k: nat)
    requires k <= |Text(r)|
    ensures View(Stopped(files, n, r, k)) ==
      View(files)[NameOf(n + 1, r.action) := if k + 1 >= |Text(r)| then Some(r) else None]
  {
    CutReceiptReads(r, k);
    ViewOfWrite(files, NameOf(n + 1, r.action), Text(r)[..k]);
  }

  lemma ViewOfWrite(files: Files, name: string, text: string)
    ensures View(files[name := text]) == View(files)[name := Reading(text)]
  {
  }

  /**
   An append that stops after `k` characters leaves a readable directory exactly when at most the final
   line break is missing, and then the directory holds the longer chain.
   */
  lemma StoppedReceiptBlocks(files: Files, chain: seq<Receipt>, r: Receipt, k: nat, runId: string, expected: Option<string>)
    requires Holds(View(files), chain) && k <= |Text(r)|
    ensures Readable(View(Stopped(files, |chain|, r, k)), runId, expected) <==>
      k + 1 >= |Text(r)| && |chain| < MAX_RECEIPTS && Genuine(chain + [r], runId, expected)
    ensures k + 1 >= |Text(r)| ==> Holds(View(Stopped(files, |chain|, r, k)), chain + [r])
  {
    hide *;
    ViewOfStopped(files, |chain|, r, k);
    NextFileBlocks(View(files), chain, r, k + 1 >= |Text(r)|, runId, expected);
  }

  /** The files hold the chain and, beside it, a receipt whose writing stopped too early. */
  ghost predicate Torn(files: Files, chain: seq<Receipt>) {
    exists whole, r, k: nat :: k + 1 < |Text(r)| && Holds(View(whole), chain) && files == Stopped(whole, |chain|, r, k)
  }

  lemma TornIsUnreadable(files: Files, chain: seq<Receipt>, runId: string, expected: Option<string>)
    requires Torn(files, chain)
    ensures !Readable(View(files), runId, expected)
  {
    var whole, r, k: nat :| k + 1 < |Text(r)| && Holds(View(whole), chain) && files == Stopped(whole, |chain|, r, k);
    StoppedReceiptBlocks(whole, chain, r, k, runId, expected);
  }

  /** What a directory of files is in: one chain, whole, or with a torn receipt beside it. */
  ghost predicate Stores(files: Files, chain: seq<Receipt>, torn: bool) {
    if torn then Torn(files, chain) else Holds(View(files), chain)
  }

  /** The reader on stored files: the chain, unless a receipt is torn or the chain is too long or not genuine. */
  method ReadReceipts(files: Files, runId: string, expected: Option<string>, ghost chain: seq<Receipt>, ghost torn: bool)
    returns (r: Result<seq<Receipt>>)
    requires Stores(files, chain, torn)
    ensures r == if !torn && |chain| <= MAX_RECEIPTS && Genuine(chain, runId, expected) then Ok(chain) else Err
  {
    r := LifecycleReceipts(View(files), runId, expected);
    if torn {
      TornIsUnreadable(files, chain, runId, expected);
    } else {
      HeldIsReadable(View(files), chain, runId, expected);
      assert r == Ok(chain) <==> Reads(View(files), runId, expected, chain);
    }
    if r.Ok? {
      assert Reads(View(files), runId, expected, r.value);
      if !torn { OneChain(View(files), chain, r.value); }
    }
  }

  /** Creates the next file and writes `k` characters of the receipt into it. */
  method WriteReceipt(files: Files, r: Receipt, k: nat, ghost chain: seq<Receipt>) returns (after: Files)
    requires Stores(files, chain, false) && |chain| <= MAX_RECEIPTS && Genuine(chain, r.runId, None) && k <= |Text(r)|
    ensures if k + 1 >= |Text(r)| then Stores(after, chain + [r], false) else Stores(after, chain, true)
  {
    var again := ReadReceipts(files, r.runId, None, chain, false);
    StoppedReceiptBlocks(files, chain, r, k, r.runId, None);
    after := Stopped(files, |again.value|, r, k);
  }
}
