/** What the games refresh does to the parsed response: the in-place
    deletion of the event-batch field from every game record, where it
    raises, and what a reader of the snapshot is shown. */
module Games {

  import opened Wrappers
  import opened Json

  /** One game record: a JSON object from the upstream games list. */
  type Game = map<string, Value>

  /** The field deleted from every game record before it is kept. */
  const EventBatchesKey: string := "gameEventBatches"

  /** A game record with the event-batch field removed. */
  function Strip(g: Game): Game
  {
    g - {EventBatchesKey}
  }

  /** Every record of `gs` stripped, in order. */
  function StripAll(gs: seq<Game>): (r: seq<Game>)
    ensures |r| == |gs|
  {
    if gs == [] then [] else [Strip(gs[0])] + StripAll(gs[1..])
  }

  /** The list as the loop leaves it once it has stripped its first `n`
      records: those `n` stripped, the rest as they came. */
  function StripPrefix(gs: seq<Game>, n: nat): seq<Game>
    requires n <= |gs|
  {
    StripAll(gs[..n]) + gs[n..]
  }

  /** Every record carries the event-batch field, so `del` never raises. */
  predicate AllCarryBatches(gs: seq<Game>)
  {
    forall j :: 0 <= j < |gs| ==> EventBatchesKey in gs[j]
  }

  /** The index of the first record that lacks the event-batch field: the
      record on which `del` raises `KeyError`; None when there is none. */
  function FirstMissing(gs: seq<Game>): (r: Option<nat>)
    ensures r.None? <==> AllCarryBatches(gs)
    ensures r.Some? ==> r.value < |gs| && EventBatchesKey !in gs[r.value]
    ensures r.Some? ==> AllCarryBatches(gs[..r.value])
  {
    if gs == [] then None
    else if EventBatchesKey !in gs[0] then Some(0)
    else match FirstMissing(gs[1..])
      case None => None
      case Some(k) => assert gs[..k + 1] == [gs[0]] + gs[1..][..k]; Some(k + 1)
  }

  /** The first record without the field is the one where `del` raises:
      a record lacking the field, with every record before it carrying it,
      is the one `FirstMissing` names. `FirstMissing`'s contract makes
      that index unique; the induction spells out the uniqueness argument. */
  lemma {:induction false} FirstMissingIs(gs: seq<Game>, k: nat)
    requires k < |gs| && EventBatchesKey !in gs[k]
    requires AllCarryBatches(gs[..k])
    ensures FirstMissing(gs) == Some(k)
  {
    if k > 0 {
      assert gs[..k][0] == gs[0];
      assert gs[1..][..k - 1] == gs[..k][1..];
      FirstMissingIs(gs[1..], k - 1);
    }
  }

  /** The snapshot as JSON: the list of game objects, in order. */
  function GamesJson(gs: seq<Game>): (r: seq<Value>)
    ensures |r| == |gs|
    ensures forall i :: 0 <= i < |gs| ==> r[i] == Obj(gs[i])
  {
    if gs == [] then [] else [Obj(gs[0])] + GamesJson(gs[1..])
  }

  /** Record `i` of the stripped list is record `i` of the input minus the
      event-batch field. */
  lemma {:induction false} StripAllAt(gs: seq<Game>, i: nat)
    requires i < |gs|
    ensures StripAll(gs)[i] == Strip(gs[i])
  {
    if i > 0 {
      StripAllAt(gs[1..], i - 1);
    }
  }

  /** After `n` iterations, records before `n` are stripped and records
      from `n` on are untouched; the length never changes. */
  lemma StripPrefixAt(gs: seq<Game>, n: nat, i: nat)
    requires n <= |gs| && i < |gs|
    ensures |StripPrefix(gs, n)| == |gs|
    ensures StripPrefix(gs, n)[i] == if i < n then Strip(gs[i]) else gs[i]
  {
    if i < n {
      StripAllAt(gs[..n], i);
    }
  }

  /** One iteration of the loop replaces record `n` by its stripped form. */
  lemma StripPrefixStep(gs: seq<Game>, n: nat)
    requires n < |gs|
    ensures StripPrefix(gs, n + 1) == StripPrefix(gs, n)[n := Strip(gs[n])]
  {
    var after, updated := StripPrefix(gs, n + 1), StripPrefix(gs, n)[n := Strip(gs[n])];
    StripPrefixAt(gs, n, 0);
    StripPrefixAt(gs, n + 1, 0);
    forall i | 0 <= i < |gs|
      ensures after[i] == updated[i]
    {
      StripPrefixAt(gs, n, i);
      StripPrefixAt(gs, n + 1, i);
    }
  }

  /** The records that carry the field, extended by one more that does. */
  lemma AllCarryBatchesExtend(gs: seq<Game>, i: nat)
    requires i < |gs| && AllCarryBatches(gs[..i]) && EventBatchesKey in gs[i]
    ensures AllCarryBatches(gs[..i + 1])
  {
    assert gs[..i + 1] == gs[..i] + [gs[i]];
  }

  /** Before the loop the list is the response; after the last iteration it
      is the fully stripped list. */
  lemma StripPrefixEnds(gs: seq<Game>)
    ensures StripPrefix(gs, 0) == gs
    ensures StripPrefix(gs, |gs|) == StripAll(gs)
  {
    assert gs[..0] == [];
    assert gs[..|gs|] == gs;
  }

  /** No record of a stripped list carries the event-batch field. */
  lemma StrippedLacksBatches(gs: seq<Game>)
    ensures forall i :: 0 <= i < |gs| ==> EventBatchesKey !in StripAll(gs)[i]
  {
    forall i | 0 <= i < |gs|
      ensures EventBatchesKey !in StripAll(gs)[i]
    {
      StripAllAt(gs, i);
    }
  }

  /** Stripping touches nothing but the event-batch field: every other
      field of every record is present exactly when it was, with the same
      value. */
  lemma StrippedKeepsOtherFields(gs: seq<Game>, i: nat, k: string)
    requires i < |gs| && k != EventBatchesKey
    ensures k in StripAll(gs)[i] <==> k in gs[i]
    ensures k in gs[i] ==> StripAll(gs)[i][k] == gs[i][k]
  {
    StripAllAt(gs, i);
  }

  /** When `del` raises at record `k`, the list left behind still shows
      event batches to readers exactly when some later record carries
      them: record `k` itself has none, the records before it were
      stripped. */
  lemma FailedStripExposesBatches(gs: seq<Game>, k: nat)
    requires FirstMissing(gs) == Some(k)
    ensures (exists j :: 0 <= j < |gs| && EventBatchesKey in StripPrefix(gs, k)[j])
        <==> (exists j :: k < j < |gs| && EventBatchesKey in gs[j])
  {
    forall j | 0 <= j < |gs|
      ensures EventBatchesKey in StripPrefix(gs, k)[j] <==> k < j && EventBatchesKey in gs[j]
    {
      StripPrefixAt(gs, k, j);
    }
  }

  /** A remark on non-idempotence, not a path the program takes: the
      deletion loop cannot be run twice over the same records, since on a
      non-empty list it already stripped `del` raises on the first record.
      The program never does this, because each refresh strips a freshly
      parsed response. */
  lemma RestripFailsAtFirstRecord(gs: seq<Game>)
    requires gs != []
    ensures FirstMissing(StripAll(gs)) == Some(0)
  {
    StripAllAt(gs, 0);
  }
}
