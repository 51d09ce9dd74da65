/** Parts that greedy and beam search share: forced prefixes and step limits (src/decoding.cc). */
module Steps {
  import opened Options
  import opened Processors

  datatype Hypothesis = Hypothesis(tokens: seq<Token>, score: real)

  function PrefixLength(prefix: Option<seq<Token>>): nat {
    if prefix.Some? then |prefix.value| else 0
  }

  /** The number of steps after which a sentence is at its last one (`is_last_step`). */
  function MaxSteps(maxLength: nat, returnPrefix: bool, prefix: Option<seq<Token>>): nat {
    maxLength + if returnPrefix then 0 else PrefixLength(prefix)
  }

  function PrefixOf(prefixIds: Option<seq<seq<Token>>>, b: nat): Option<seq<Token>>
    requires prefixIds.Some? ==> b < |prefixIds.value|
  {
    if prefixIds.Some? then Some(prefixIds.value[b]) else None
  }

  /** `get_max_step`. */
  method GetMaxStep(maxLength: nat, returnPrefix: bool, prefixIds: Option<seq<seq<Token>>>) returns (maxStep: nat)
    ensures prefixIds.None? || returnPrefix ==> maxStep == maxLength
    ensures prefixIds.Some? && !returnPrefix ==>
      && (forall b :: 0 <= b < |prefixIds.value| ==> |prefixIds.value[b]| + maxLength <= maxStep)
      && (maxStep == 0 || exists b :: 0 <= b < |prefixIds.value| && maxStep == |prefixIds.value[b]| + maxLength)
  {
    maxStep := 0;
    if prefixIds.Some? && !returnPrefix {
      var b := 0;
      while b < |prefixIds.value|
        invariant b <= |prefixIds.value|
        invariant forall b' :: 0 <= b' < b ==> |prefixIds.value[b']| + maxLength <= maxStep
        invariant maxStep == 0 || exists b' :: 0 <= b' < b && maxStep == |prefixIds.value[b']| + maxLength
      {
        if maxStep < |prefixIds.value[b]| + maxLength {
          maxStep := |prefixIds.value[b]| + maxLength;
        }
        b := b + 1;
      }
    } else {
      maxStep := maxLength;
    }
  }

  /** The batch given to a search: a decoder state, a start token and perhaps a forced prefix per sentence. */
  datatype Input<S(!new)> = Input(states: seq<S>, startIds: seq<Token>, prefixIds: Option<seq<seq<Token>>>) {
    ghost predicate Matching() {
      |states| == |startIds| && (prefixIds.Some? ==> |prefixIds.value| == |startIds|)
    }

    function Prefix(b: nat): Option<seq<Token>>
      requires prefixIds.Some? ==> b < |prefixIds.value|
    {
      PrefixOf(prefixIds, b)
    }
  }
}
