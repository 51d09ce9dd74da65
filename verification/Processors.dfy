/** Token bans on the model output: src/decoding_utils.cc, include/ctranslate2/decoding_utils.h. */
module Processors {
  import opened RowMajor
  import opened Vectors

  type Token = nat

  predicate IsEos(id: Token, endIds: seq<Token>) { id in endIds }

  // ----- DisableTokens -----

  function Fill(values: seq<real>, disabled: set<nat>, v: real): (r: seq<real>)
    ensures |r| == |values| && forall k :: 0 <= k < |r| ==> r[k] == if k in disabled then v else values[k]
  {
    seq(|values|, k requires 0 <= k < |values| => if k in disabled then v else values[k])
  }

  /** `std::lower_bound`. */
  method LowerBound(s: seq<nat>, x: nat) returns (it: nat)
    requires StrictlyIncreasing(s)
    ensures it <= |s|
    ensures forall k :: 0 <= k < it ==> s[k] < x
    ensures forall k :: it <= k < |s| ==> x <= s[k]
  {
    it := 0;
    var end := |s|;
    while it < end
      invariant it <= end <= |s|
      invariant forall k :: 0 <= k < it ==> s[k] < x
      invariant forall k :: end <= k < |s| ==> x <= s[k]
    {
      var mid := (it + end) / 2;
      if s[mid] < x {
        it := mid + 1;
      } else {
        end := mid;
      }
    }
  }

  /** The list stays sorted and without duplicates. */
  method InsertSorted(s: seq<nat>, x: nat) returns (r: seq<nat>)
    requires StrictlyIncreasing(s)
    ensures StrictlyIncreasing(r) && forall k :: k in r <==> k in s || k == x
  {
    r := s;
    var it := LowerBound(s, x);
    if it == |s| || s[it] != x {
      r := s[..it] + [x] + s[it..];
      assert r[it] == x;
      assert forall k :: 0 <= k < |s| ==> s[k] == r[if k < it then k else k + 1];
    }
  }

  /** On CPU a ban is written into the logits at once; elsewhere it is kept in a sorted list of unique
      flat indices until `Apply`. */
  class DisableTokens {
    const logits: array<real>
    const onCpu: bool
    const disableValue: real
    const batchSize: nat
    const vocabularySize: nat
    var flatIndices: seq<nat>
    ghost var original: seq<real>  // the logits without the pending bans
    ghost var disabled: set<nat>   // the pending bans

    ghost predicate Valid()
      reads this, logits
    {
      && logits.Length == batchSize * vocabularySize == |original|
      && (forall k :: k in disabled ==> k < logits.Length)
      && logits[..] == (if onCpu then Fill(original, disabled, disableValue) else original)
      && StrictlyIncreasing(flatIndices)
      && (forall k :: k in flatIndices <==> !onCpu && k in disabled)
    }

    constructor (logits: array<real>, onCpu: bool, disableValue: real, batchSize: nat, vocabularySize: nat)
      requires logits.Length == batchSize * vocabularySize
      ensures Valid() && this.logits == logits && this.onCpu == onCpu && this.disableValue == disableValue
      ensures this.batchSize == batchSize && this.vocabularySize == vocabularySize
      ensures original == logits[..] && disabled == {}
    {
      this.logits, this.onCpu, this.disableValue := logits, onCpu, disableValue;
      this.batchSize, this.vocabularySize := batchSize, vocabularySize;
      flatIndices := [];
      original := logits[..];
      disabled := {};
    }

    method Add(batchId: nat, tokenId: Token)
      requires Valid() && batchId < batchSize && tokenId < vocabularySize
      modifies this, logits
      ensures Valid() && original == old(original)
      ensures disabled == old(disabled) + {Flat(batchId, tokenId, vocabularySize)}
    {
      hide Flat;
      FlatBound(batchId, tokenId, vocabularySize, batchSize);
      var flatIndex := Flat(batchId, tokenId, vocabularySize);
      if onCpu {
        logits[flatIndex] := disableValue;
      } else {
        flatIndices := InsertSorted(flatIndices, flatIndex);
      }
      disabled := disabled + {flatIndex};
      assert onCpu ==> logits[..] == Fill(original, disabled, disableValue);
    }

    /** Disables a token in every row. */
    method AddAll(tokenId: Token)
      requires Valid() && tokenId < vocabularySize
      modifies this, logits
      ensures Valid() && original == old(original)
      ensures forall k :: k in disabled <==>
                k in old(disabled) || exists b :: 0 <= b < batchSize && k == Flat(b, tokenId, vocabularySize)
    {
      var b := 0;
      while b < batchSize
        invariant b <= batchSize && Valid() && original == old(original)
        invariant forall k :: k in disabled <==>
                    k in old(disabled) || exists b' :: 0 <= b' < b && k == Flat(b', tokenId, vocabularySize)
      {
        Add(b, tokenId);
        b := b + 1;
      }
    }

    /** Both devices end with the same logits: the original ones with every added position filled. */
    method Apply()
      requires Valid()
      modifies this, logits
      ensures Valid() && disabled == {}
      ensures original == logits[..] == Fill(old(original), old(disabled), disableValue)
    {
      var k := 0;
      while k < |flatIndices|
        invariant k <= |flatIndices| && flatIndices == old(flatIndices)
        invariant original == old(original) && disabled == old(disabled)
        invariant onCpu ==> logits[..] == old(logits[..])
        invariant !onCpu ==> forall i :: 0 <= i < logits.Length ==>
                    logits[i] == if i in flatIndices[..k] then disableValue else original[i]
      {
        assert flatIndices[k] in flatIndices;
        logits[flatIndices[k]] := disableValue;
        assert flatIndices[..k + 1] == flatIndices[..k] + [flatIndices[k]];
        k := k + 1;
      }
      assert flatIndices[..k] == flatIndices;
      assert logits[..] == Fill(original, disabled, disableValue);
      flatIndices := [];
      original := logits[..];
      disabled := {};
    }
  }

  // ----- NoRepeatNgram -----

  ghost predicate MatchAt(row: seq<Token>, p: int, pattern: seq<Token>) {
    0 <= p && p + |pattern| <= |row| && row[p..p + |pattern|] == pattern
  }

  /** `std::search` from begin: the first match, or the end. */
  method Search(row: seq<Token>, begin: nat, pattern: seq<Token>) returns (p: nat)
    requires begin <= |row|
    ensures begin <= p <= |row|
    ensures forall q :: begin <= q < p ==> !MatchAt(row, q, pattern)
    ensures p < |row| ==> MatchAt(row, p, pattern)
  {
    p := begin;
    while p < |row| && !(p + |pattern| <= |row| && row[p..p + |pattern|] == pattern)
      invariant begin <= p <= |row|
      invariant forall q :: begin <= q < p ==> !MatchAt(row, q, pattern)
    {
      p := p + 1;
    }
  }

  ghost function Window(s: seq<Token>, p: int, n: nat): seq<Token> {
    if 0 <= p && p + n <= |s| then s[p..p + n] else []
  }

  /** Appending t recreates an n-gram that the row already holds. */
  ghost predicate Recreates(row: seq<Token>, n: nat, t: Token) {
    exists p :: 0 <= p && p + n <= |row| && Window(row, p, n) == Window(row + [t], |row| + 1 - n, n)
  }

  /** The scan's view of the same: the last n - 1 tokens recur at p, followed by t. */
  ghost predicate TailRecursAt(row: seq<Token>, n: nat, p: int, t: Token)
    requires 1 <= n <= |row|
  {
    0 <= p && p + n <= |row| && MatchAt(row, p, row[|row| + 1 - n..]) && row[p + n - 1] == t
  }

  lemma RecreatesAt(row: seq<Token>, n: nat, p: int, t: Token)
    requires 1 <= n && 0 <= p && p + n <= |row|
    ensures Window(row, p, n) == Window(row + [t], |row| + 1 - n, n) <==> TailRecursAt(row, n, p, t)
  {
    var tail := row[|row| + 1 - n..];
    assert Window(row + [t], |row| + 1 - n, n) == tail + [t];
    assert Window(row, p, n) == row[p..p + n - 1] + [row[p + n - 1]];
    if Window(row, p, n) == tail + [t] {
      assert row[p..p + n - 1] == (tail + [t])[..n - 1] == tail;
    }
  }

  /** One row of `NoRepeatNgram::apply`. */
  method NgramFinalTokens(row: seq<Token>, n: nat) returns (banned: set<Token>)
    requires 1 <= n <= |row|
    ensures forall t :: t in banned <==> Recreates(row, n, t)
  {
    banned := {};
    var begin := 0;
    var pattern := row[|row| + 1 - n..];
    while true
      invariant begin <= |row|
      invariant forall t :: t in banned <==> exists p :: 0 <= p < begin && TailRecursAt(row, n, p, t)
      decreases |row| - begin
    {
      begin := Search(row, begin, pattern);
      if begin + n > |row| {
        forall t ensures t in banned <==> Recreates(row, n, t) {
          RecreatesIff(row, n, begin, t);
        }
        return;
      }
      banned := banned + {row[begin + n - 1]};
      assert TailRecursAt(row, n, begin, row[begin + n - 1]);
      begin := begin + 1;
    }
  }

  lemma RecreatesIff(row: seq<Token>, n: nat, begin: nat, t: Token)
    requires 1 <= n <= |row| && begin + n > |row|
    ensures Recreates(row, n, t) <==> exists p :: 0 <= p < begin && TailRecursAt(row, n, p, t)
  {
    if Recreates(row, n, t) {
      var p :| 0 <= p && p + n <= |row| && Window(row, p, n) == Window(row + [t], |row| + 1 - n, n);
      RecreatesAt(row, n, p, t);
    }
    if p :| 0 <= p < begin && TailRecursAt(row, n, p, t) {
      RecreatesAt(row, n, p, t);
    }
  }

  /** No n-gram occurs twice. */
  ghost predicate NoRepeat(s: seq<Token>, n: nat) {
    forall p, q :: 0 <= p < q && q + n <= |s| ==> Window(s, p, n) != Window(s, q, n)
  }

  lemma WindowAppend(s: seq<Token>, t: Token, n: nat)
    ensures forall p :: 0 <= p && p + n <= |s| ==> Window(s + [t], p, n) == Window(s, p, n)
  {
    forall p | 0 <= p && p + n <= |s| ensures Window(s + [t], p, n) == Window(s, p, n) {
      assert (s + [t])[p..p + n] == s[p..p + n];
    }
  }

  /** The ban is exact: a row stays free of repeated n-grams iff the appended token is not banned. */
  lemma NoRepeatAppend(s: seq<Token>, n: nat, t: Token)
    requires n >= 1
    ensures NoRepeat(s + [t], n) <==> NoRepeat(s, n) && !Recreates(s, n, t)
  {
    if NoRepeat(s + [t], n) {
      NoRepeatShrinks(s, n, t);
    }
    if NoRepeat(s, n) && !Recreates(s, n, t) {
      NoRepeatGrows(s, n, t);
    }
  }

  lemma NoRepeatShrinks(s: seq<Token>, n: nat, t: Token)
    requires n >= 1 && NoRepeat(s + [t], n)
    ensures NoRepeat(s, n) && !Recreates(s, n, t)
  {
    WindowAppend(s, t, n);
    var r := s + [t];
    forall p, q | 0 <= p < q && q + n <= |s| ensures Window(s, p, n) != Window(s, q, n) {
      assert Window(r, p, n) != Window(r, q, n);
    }
    forall p | 0 <= p && p + n <= |s| ensures Window(s, p, n) != Window(r, |s| + 1 - n, n) {
      assert Window(r, p, n) != Window(r, |s| + 1 - n, n);
    }
  }

  lemma NoRepeatGrows(s: seq<Token>, n: nat, t: Token)
    requires n >= 1 && NoRepeat(s, n) && !Recreates(s, n, t)
    ensures NoRepeat(s + [t], n)
  {
    hide Window;
    WindowAppend(s, t, n);
    var r := s + [t];
    forall p, q | 0 <= p < q && q + n <= |r| ensures Window(r, p, n) != Window(r, q, n) {
      assert Window(r, p, n) == Window(s, p, n);
      if q + n <= |s| {
        assert Window(r, q, n) == Window(s, q, n);
      } else {
        assert q == |s| + 1 - n;
      }
    }
  }

  // ----- SuppressSequences -----

  ghost predicate Contains(s: seq<Token>, banned: seq<Token>) {
    exists p :: MatchAt(s, p, banned)
  }

  /** Appending t completes the banned sequence at the end of the row. */
  ghost predicate Completes(row: seq<Token>, banned: seq<Token>, t: Token) {
    |banned| <= |row| + 1 && banned == (row + [t])[|row| + 1 - |banned|..]
  }

  /** The ban is exact for a nonempty banned sequence. */
  lemma ContainsAppend(s: seq<Token>, banned: seq<Token>, t: Token)
    requires banned != []
    ensures Contains(s + [t], banned) <==> Contains(s, banned) || Completes(s, banned, t)
  {
    var r := s + [t];
    if Contains(r, banned) {
      var p :| MatchAt(r, p, banned);
      if p + |banned| <= |s| {
        assert s[p..p + |banned|] == r[p..p + |banned|];
        assert MatchAt(s, p, banned);
      } else {
        assert r[p..p + |banned|] == r[p..];
      }
    }
    if Contains(s, banned) {
      var p :| MatchAt(s, p, banned);
      assert r[p..p + |banned|] == s[p..p + |banned|];
      assert MatchAt(r, p, banned);
    }
    if Completes(s, banned, t) {
      var p := |r| - |banned|;
      assert r[p..p + |banned|] == r[p..];
      assert MatchAt(r, p, banned);
    }
  }

  /** The constructor's split: single tokens, longer sequences; empty ones are dropped. */
  class SuppressSequences {
    const ids: seq<Token>
    const sequences: seq<seq<Token>>
    ghost const all: seq<seq<Token>>

    ghost predicate Valid() {
      && (forall b :: b in sequences ==> |b| > 1)
      && (forall b :: b != [] ==> (b in all <==> if |b| == 1 then b[0] in ids else b in sequences))
      && (forall id :: id in ids ==> [id] in all)
    }

    constructor (sequences: seq<seq<Token>>)
      ensures Valid() && all == sequences
    {
      var ids, longer: seq<seq<Token>> := [], [];
      var k := 0;
      while k < |sequences|
        invariant k <= |sequences|
        invariant forall b :: b in longer ==> |b| > 1
        invariant forall b :: b != [] ==> (b in sequences[..k] <==> if |b| == 1 then b[0] in ids else b in longer)
        invariant forall id :: id in ids ==> [id] in sequences[..k]
      {
        var s := sequences[k];
        assert sequences[..k + 1] == sequences[..k] + [s];
        if s == [] {
        } else if |s| == 1 {
          assert s == [s[0]] && forall b: seq<Token> :: |b| == 1 && b[0] == s[0] ==> b == s;
          ids := ids + [s[0]];
        } else {
          longer := longer + [s];
        }
        k := k + 1;
      }
      assert sequences[..k] == sequences;
      this.ids, this.sequences := ids, longer;
      all := sequences;
    }

    /** One row of `apply`: the tokens it disables. A row that is not there yet is []. */
    method BannedTokens(row: seq<Token>) returns (banned: set<Token>)
      requires Valid()
      ensures forall t :: t in banned <==> exists b :: b in all && b != [] && Completes(row, b, t)
    {
      banned := set id | id in ids;
      var k := 0;
      while k < |sequences|
        invariant k <= |sequences|
        invariant forall t :: t in banned <==>
                    t in ids || CompletesSome(row, sequences[..k], t)
      {
        var b := sequences[k];
        assert b in sequences;
        var compareLength := |b| - 1;
        CompletesTail(row, b);
        CompletesSomeAppend(row, sequences[..k], b);
        if compareLength <= |row| && row[|row| - compareLength..] == b[..compareLength] {
          banned := banned + {b[compareLength]};
        }
        assert sequences[..k + 1] == sequences[..k] + [b];
        k := k + 1;
      }
      assert sequences[..k] == sequences;
      forall t ensures t in banned <==> exists b :: b in all && b != [] && Completes(row, b, t) {
        BannedIff(row, t);
      }
    }

    lemma BannedIff(row: seq<Token>, t: Token)
      requires Valid()
      ensures (t in ids || CompletesSome(row, sequences, t))
              <==> exists b :: b in all && b != [] && Completes(row, b, t)
    {
      if t in ids {
        assert [t] in all && Completes(row, [t], t);
      }
      if b :| b in all && b != [] && Completes(row, b, t) {
        if |b| == 1 {
          assert b[0] == (row + [t])[|row| + 1 - |b|..][0] == t;
        }
      }
    }
  }

  ghost predicate CompletesSome(row: seq<Token>, all: seq<seq<Token>>, t: Token) {
    exists b :: b in all && Completes(row, b, t)
  }

  lemma CompletesSomeAppend(row: seq<Token>, all: seq<seq<Token>>, b: seq<Token>)
    ensures forall t :: CompletesSome(row, all + [b], t) <==> CompletesSome(row, all, t) || Completes(row, b, t)
  {
    forall t ensures CompletesSome(row, all + [b], t) <==> CompletesSome(row, all, t) || Completes(row, b, t) {
      assert b in all + [b];
      if CompletesSome(row, all, t) {
        var c :| c in all && Completes(row, c, t);
        assert c in all + [b];
      }
    }
  }

  lemma CompletesTail(row: seq<Token>, b: seq<Token>)
    requires b != []
    ensures forall t :: Completes(row, b, t) <==>
              |b| - 1 <= |row| && row[|row| - (|b| - 1)..] == b[..|b| - 1] && b[|b| - 1] == t
  {
    forall t ensures Completes(row, b, t) <==>
              |b| - 1 <= |row| && row[|row| - (|b| - 1)..] == b[..|b| - 1] && b[|b| - 1] == t
    {
      if |b| - 1 <= |row| {
        var tail := row[|row| - (|b| - 1)..];
        assert (row + [t])[|row| + 1 - |b|..] == tail + [t];
        assert b == b[..|b| - 1] + [b[|b| - 1]];
        if b == tail + [t] {
          assert b[..|b| - 1] == tail;
        }
      }
    }
  }

  // ----- Whole batches -----

  /** k is the flat position of a token banned in its row. */
  ghost predicate BannedAt(banned: seq<set<Token>>, vocabularySize: nat, k: nat) {
    exists b, t :: 0 <= b < |banned| && t in banned[b] && k == Flat(b, t, vocabularySize)
  }

  ghost predicate Bans(disabled: set<nat>, before: set<nat>, banned: seq<set<Token>>, vocabularySize: nat) {
    forall k :: k in disabled <==> k in before || BannedAt(banned, vocabularySize, k)
  }

  /** Bans act row by row: position (b, t) is disabled exactly if t is banned in row b. */
  lemma BansAreRowWise(banned: seq<set<Token>>, vocabularySize: nat, b: nat, t: Token)
    requires b < |banned| && t < vocabularySize
    requires forall b', t' :: 0 <= b' < |banned| && t' in banned[b'] ==> t' < vocabularySize
    ensures BannedAt(banned, vocabularySize, Flat(b, t, vocabularySize)) <==> t in banned[b]
  {
    if b', t' :| 0 <= b' < |banned| && t' in banned[b'] && Flat(b, t, vocabularySize) == Flat(b', t', vocabularySize) {
      FlatInjective(b, t, b', t', vocabularySize);
    }
  }

  /** Adds every token of a set for one row. */
  method AddRow(disable: DisableTokens, b: nat,
                tokens: set<Token>, ghost banned: seq<set<Token>>, ghost before: set<nat>)
    requires disable.Valid() && |banned| == b < disable.batchSize
    requires forall t :: t in tokens ==> t < disable.vocabularySize
    requires Bans(disable.disabled, before, banned, disable.vocabularySize)
    modifies disable, disable.logits
    ensures disable.Valid() && disable.original == old(disable.original)
    ensures Bans(disable.disabled, before, banned + [tokens], disable.vocabularySize)
  {
    var rest := tokens;
    var v := disable.vocabularySize;
    assert forall k :: BannedAt(banned + [{}], v, k) <==> BannedAt(banned, v, k) by {
      forall k ensures BannedAt(banned + [{}], v, k) <==> BannedAt(banned, v, k) {
        BannedAtAppend(banned, {}, v, k);
      }
    }
    while rest != {}
      invariant rest <= tokens && disable.Valid() && disable.original == old(disable.original)
      invariant Bans(disable.disabled, before, banned + [tokens - rest], v)
      decreases |rest|
    {
      var t: nat :| t in rest;
      ghost var done := tokens - rest;
      disable.Add(b, t);
      rest := rest - {t};
      assert tokens - rest == done + {t};
      forall k
        ensures BannedAt(banned + [done + {t}], v, k) <==> BannedAt(banned + [done], v, k) || k == Flat(b, t, v)
      {
        BannedAtAppend(banned, done, v, k);
        BannedAtAppend(banned, done + {t}, v, k);
      }
    }
    assert tokens - rest == tokens;
  }

  lemma BannedAtAppend(banned: seq<set<Token>>, tokens: set<Token>, v: nat, k: nat)
    ensures BannedAt(banned + [tokens], v, k)
            <==> BannedAt(banned, v, k) || exists t :: t in tokens && k == Flat(|banned|, t, v)
  {
    var all := banned + [tokens];
    if BannedAt(banned, v, k) {
      var b, t :| 0 <= b < |banned| && t in banned[b] && k == Flat(b, t, v);
      assert t in all[b];
    }
    if t :| t in tokens && k == Flat(|banned|, t, v) {
      assert t in all[|banned|];
    }
  }

  /** The row bans of `NoRepeatNgram`: nothing before the history reaches the n-gram size. */
  ghost predicate NgramBans(banned: seq<set<Token>>, sequences: seq<seq<Token>>, n: nat) {
    |banned| == |sequences| &&
    forall b, t :: 0 <= b < |sequences| ==> (t in banned[b] <==> Recreates(sequences[b], n, t))
  }

  method ApplyNoRepeatNgram(n: nat, disable: DisableTokens,
                            sequences: seq<seq<Token>>) returns (ghost banned: seq<set<Token>>)
    requires n >= 1 && disable.Valid() && |sequences| == disable.batchSize
    requires forall b, k :: 0 <= b < |sequences| && 0 <= k < |sequences[b]| ==> sequences[b][k] < disable.vocabularySize
    modifies disable, disable.logits
    ensures disable.Valid() && disable.original == old(disable.original)
    ensures NgramBans(banned, sequences, n)
    ensures Bans(disable.disabled, old(disable.disabled), banned, disable.vocabularySize)
  {
    banned := [];
    var b := 0;
    while b < |sequences|
      invariant b <= |sequences| && disable.Valid() && disable.original == old(disable.original)
      invariant NgramBans(banned, sequences[..b], n)
      invariant Bans(disable.disabled, old(disable.disabled), banned, disable.vocabularySize)
    {
      var tokens: set<Token> := {};
      if n <= |sequences[b]| {
        tokens := NgramFinalTokens(sequences[b], n);
        RecreatedInRow(sequences[b], n);
      }
      AddRow(disable, b, tokens, banned, old(disable.disabled));
      banned := banned + [tokens];
      b := b + 1;
    }
    assert sequences[..b] == sequences;
  }

  lemma RecreatedInRow(row: seq<Token>, n: nat)
    requires 1 <= n <= |row|
    ensures forall t :: Recreates(row, n, t) ==> t in row
  {
    forall t | Recreates(row, n, t) ensures t in row {
      var p :| 0 <= p && p + n <= |row| && Window(row, p, n) == Window(row + [t], |row| + 1 - n, n);
      RecreatesAt(row, n, p, t);
    }
  }

  lemma NothingBanned(disabled: set<nat>, v: nat)
    ensures Bans(disabled, disabled, [], v)
  {
  }

  /** The row bans of `SuppressSequences`: the tokens that complete some banned sequence. */
  ghost predicate SequenceBans(banned: seq<set<Token>>, sequences: seq<seq<Token>>, all: seq<seq<Token>>) {
    |banned| == |sequences| &&
    forall b, t :: 0 <= b < |sequences| ==> (t in banned[b] <==> CompletesNonempty(sequences[b], all, t))
  }

  ghost predicate CompletesNonempty(row: seq<Token>, all: seq<seq<Token>>, t: Token) {
    exists s :: s in all && s != [] && Completes(row, s, t)
  }

  /** `SuppressSequences::apply`, row by row; rows without a history are []. */
  method ApplySuppressSequences(suppress: SuppressSequences, disable: DisableTokens, sequences: seq<seq<Token>>)
    returns (ghost banned: seq<set<Token>>)
    requires suppress.Valid() && disable.Valid() && |sequences| == disable.batchSize
    requires forall s, k :: s in suppress.all && 0 <= k < |s| ==> s[k] < disable.vocabularySize
    modifies disable, disable.logits
    ensures disable.Valid() && disable.original == old(disable.original)
    ensures SequenceBans(banned, sequences, suppress.all)
    ensures Bans(disable.disabled, old(disable.disabled), banned, disable.vocabularySize)
  {
    hide Completes, Flat, Bans;
    banned := [];
    NothingBanned(disable.disabled, disable.vocabularySize);
    var b := 0;
    while b < |sequences|
      invariant b <= |sequences| && disable.Valid() && disable.original == old(disable.original)
      invariant SequenceBans(banned, sequences[..b], suppress.all)
      invariant Bans(disable.disabled, old(disable.disabled), banned, disable.vocabularySize)
    {
      var tokens := suppress.BannedTokens(sequences[b]);
      forall t | t in tokens ensures t < disable.vocabularySize {
        var s :| s in suppress.all && s != [] && Completes(sequences[b], s, t);
        CompletesTail(sequences[b], s);
      }
      AddRow(disable, b, tokens, banned, old(disable.disabled));
      banned := banned + [tokens];
      b := b + 1;
    }
    assert sequences[..b] == sequences;
  }

  /** A row of processed logits: banned tokens at the disabled value, the others as they were. */
  ghost predicate RowBanned(xs: seq<real>, ys: seq<real>, lowest: real, banned: Token -> bool) {
    |ys| == |xs| && forall t :: 0 <= t < |xs| ==> ys[t] == if banned(t) then lowest else xs[t]
  }

  /** Row b of flat logits. */
  ghost function FlatRow(xs: seq<real>, b: nat, v: nat): (r: seq<real>)
    requires (b + 1) * v <= |xs|
    ensures |r| == v && forall t :: 0 <= t < v ==> Flat(b, t, v) < |xs| && r[t] == xs[Flat(b, t, v)]
  {
    assert (b + 1) * v == b * v + v;
    xs[b * v..b * v + v]
  }

  /** Filling the banned positions acts on each row by its own bans only. */
  lemma FillIsRowWise(original: seq<real>, lowest: real, disabled: set<nat>, banned: seq<set<Token>>, v: nat, b: nat)
    requires Bans(disabled, {}, banned, v) && b < |banned| && (b + 1) * v <= |original|
    requires forall b', t :: 0 <= b' < |banned| && t in banned[b'] ==> t < v
    ensures RowBanned(FlatRow(original, b, v), FlatRow(Fill(original, disabled, lowest), b, v), lowest,
                      (t: Token) => t in banned[b])
  {
    forall t | 0 <= t < v ensures Flat(b, t, v) in disabled <==> t in banned[b] {
      BansAreRowWise(banned, v, b, t);
    }
  }
}
