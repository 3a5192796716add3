/** The logits processor that keeps bad words out of generated text (vllm/logits_process.py). */
module BadWords {
  import opened Options
  import opened PyLists

  datatype Logit = NegInf | Fin(value: real)

  const NEUTRAL := Fin(0.0)

  function Add(a: Logit, b: Logit): Logit {
    if a.NegInf? || b.NegInf? then NegInf else Fin(a.value + b.value)
  }

  type Word = seq<int>

  // ----- What the processor is for -----

  predicate EndsWith(s: seq<int>, w: Word) {
    |w| <= |s| && s[|s| - |w|..] == w
  }

  /** Choosing `t` now completes a bad word. */
  ghost predicate Completes(words: seq<Word>, past: seq<int>, t: int) {
    exists i :: 0 <= i < |words| && EndsWith(past + [t], words[i])
  }

  predicate OccursAt(s: seq<int>, w: Word, a: int) {
    0 <= a <= |s| - |w| && s[a..a + |w|] == w
  }

  /** No bad word occurs anywhere in `s`. */
  ghost predicate Clean(words: seq<Word>, s: seq<int>) {
    forall a, i {:trigger OccursAt(s, words[i], a)} :: 0 <= i < |words| ==> !OccursAt(s, words[i], a)
  }

  /** A new token makes a word occur only at the end. */
  lemma {:induction false} OccursNext(s: seq<int>, t: int, w: Word, a: int)
    ensures OccursAt(s + [t], w, a) <==> OccursAt(s, w, a) || (a == |s| + 1 - |w| && EndsWith(s + [t], w))
  {
    var all := s + [t];
    if 0 <= a <= |s| - |w| {
      assert all[a..a + |w|] == s[a..a + |w|];
    } else if 0 <= a == |all| - |w| {
      assert all[a..a + |w|] == all[a..];
    }
  }

  lemma {:induction false} CleanNext(words: seq<Word>, s: seq<int>, t: int)
    ensures Clean(words, s + [t]) <==> Clean(words, s) && !Completes(words, s, t)
  {
    forall a, i | 0 <= i < |words|
      ensures OccursAt(s + [t], words[i], a) <==>
              OccursAt(s, words[i], a) || (a == |s| + 1 - |words[i]| && EndsWith(s + [t], words[i]))
    {
      OccursNext(s, t, words[i], a);
    }
    if Completes(words, s, t) {
      var i :| 0 <= i < |words| && EndsWith(s + [t], words[i]);
      assert OccursAt(s + [t], words[i], |s| + 1 - |words[i]|);
    }
    if !Clean(words, s) {
      var a, i :| 0 <= i < |words| && OccursAt(s, words[i], a);
      assert OccursAt(s + [t], words[i], a);
    }
  }

  /** The logits that the processor should return. */
  ghost function Processed(words: seq<Word>, past: seq<int>, logits: seq<Logit>): (r: seq<Logit>)
    ensures |r| == |logits|
  {
    seq(|logits|, t requires 0 <= t < |logits| => if Completes(words, past, t) then NegInf else logits[t])
  }

  // ----- Generations -----

  /** A model gives logits for every history, always over the same vocabulary. */
  ghost predicate IsModel(logits: seq<int> -> seq<Logit>, vocab: nat) {
    forall past :: |logits(past)| == vocab
  }

  /** `t` may be picked after `past`: its processed logit is above minus infinity. */
  ghost predicate MayPick(words: seq<Word>, logits: seq<int> -> seq<Logit>, past: seq<int>, t: int) {
    0 <= t < |logits(past)| && Processed(words, past, logits(past))[t].Fin?
  }

  ghost predicate Generated(words: seq<Word>, logits: seq<int> -> seq<Logit>, start: seq<int>, picks: seq<int>) {
    forall k :: 0 <= k < |picks| ==> MayPick(words, logits, start + picks[..k], picks[k])
  }

  lemma {:induction false} GeneratedNext(words: seq<Word>, logits: seq<int> -> seq<Logit>, start: seq<int>,
                                         picks: seq<int>)
    requires picks != []
    ensures var n := |picks| - 1;
            Generated(words, logits, start, picks) <==>
            Generated(words, logits, start, picks[..n]) && MayPick(words, logits, start + picks[..n], picks[n])
  {
    var n := |picks| - 1;
    forall k | 0 <= k < n ensures picks[..n][..k] == picks[..k] && picks[..n][k] == picks[k] {
    }
    if Generated(words, logits, start, picks) {
      forall k | 0 <= k < n ensures MayPick(words, logits, start + picks[..n][..k], picks[..n][k]) {
        assert MayPick(words, logits, start + picks[..k], picks[k]);
      }
    } else if Generated(words, logits, start, picks[..n]) {
      var k :| 0 <= k < |picks| && !MayPick(words, logits, start + picks[..k], picks[k]);
      assert k == n;
    }
  }

  /** A generation that starts clean stays clean for ever. */
  lemma {:induction false} GeneratedIsClean(words: seq<Word>, logits: seq<int> -> seq<Logit>, start: seq<int>,
                                            picks: seq<int>)
    requires Clean(words, start) && Generated(words, logits, start, picks)
    ensures Clean(words, start + picks)
  {
    if picks == [] {
      assert start + picks == start;
    } else {
      var n := |picks| - 1;
      GeneratedNext(words, logits, start, picks);
      GeneratedIsClean(words, logits, start, picks[..n]);
      CleanNext(words, start + picks[..n], picks[n]);
      assert start + picks == start + picks[..n] + [picks[n]];
    }
  }

  /** Nothing else is lost: where the model itself excludes nothing, every clean text can be generated. */
  lemma {:induction false} CleanIsGenerated(words: seq<Word>, logits: seq<int> -> seq<Logit>, vocab: nat,
                                            start: seq<int>, picks: seq<int>)
    requires IsModel(logits, vocab) && (forall past, t :: 0 <= t < |logits(past)| ==> logits(past)[t].Fin?)
    requires Clean(words, start + picks) && forall k :: 0 <= k < |picks| ==> 0 <= picks[k] < vocab
    ensures Generated(words, logits, start, picks)
  {
    if picks != [] {
      var n := |picks| - 1;
      assert start + picks == start + picks[..n] + [picks[n]];
      CleanNext(words, start + picks[..n], picks[n]);
      CleanIsGenerated(words, logits, vocab, start, picks[..n]);
      GeneratedNext(words, logits, start, picks);
    }
  }

  // ----- The processor -----

  ghost predicate InVocabulary(words: seq<Word>, vocab: nat) {
    forall i, j :: 0 <= i < |words| && 0 <= j < |words[i]| ==> 0 <= words[i][j] < vocab
  }

  /** The bias of the one-token words. */
  function WordBias(words: seq<Word>, vocab: nat): seq<Logit> {
    seq(vocab, t => if [t] in words then NegInf else NEUTRAL)
  }

  /** One of the first `i` words is longer than a token and `t` completes it. */
  ghost predicate CompletesLong(words: seq<Word>, i: nat, past: seq<int>, t: int)
    requires i <= |words|
  {
    exists j :: 0 <= j < i && |words[j]| > 1 && EndsWith(past + [t], words[j])
  }

  /** The two biases together mark exactly the completing tokens. */
  lemma {:induction false} ShortOrLong(words: seq<Word>, past: seq<int>, t: int)
    requires [] !in words
    ensures Completes(words, past, t) <==> [t] in words || CompletesLong(words, |words|, past, t)
  {
    forall i | 0 <= i < |words| && |words[i]| == 1 ensures EndsWith(past + [t], words[i]) <==> words[i] == [t] {
      assert (past + [t])[|past|..] == [t];
    }
  }

  lemma {:induction false} CutFromEnd(s: seq<int>, n: int)
    requires 0 < n <= |s|
    ensures Cut(s, -n, |s|) == s[|s| - n..]
  {
    StepsByOne(|s| - n, |s|);
  }

  lemma {:induction false} SplitLast(s: seq<int>, t: int, w: Word)
    requires w != []
    ensures s + [t] == w <==> t == w[|w| - 1] && s == w[..|w| - 1]
  {
    if s + [t] == w {
      assert w[..|w| - 1] == s;
    }
  }

  /** The comparison in the code is with the tokens just before the next one. */
  lemma {:induction false} PrefixMatch(w: Word, past: seq<int>, t: int)
    requires 1 < |w| <= |past| + 1
    ensures EndsWith(past + [t], w) <==>
            t == w[|w| - 1] && Cut(past, -(|w| - 1), |past|) == w[..|w| - 1]
  {
    var n := |w| - 1;
    CutFromEnd(past, n);
    assert (past + [t])[|past| - n..] == past[|past| - n..] + [t];
    SplitLast(past[|past| - n..], t, w);
  }

  /** Adds the bias of one longer word. */
  method MarkWord(sums: array<Logit>, w: Word, past: seq<int>)
    requires 1 < |w| <= |past| + 1 && 0 <= w[|w| - 1] < sums.Length
    modifies sums
    ensures forall t :: 0 <= t < sums.Length ==> sums[t] == if EndsWith(past + [t], w) then NegInf else old(sums[t])
  {
    var n := |w| - 1;
    var isMatch := Cut(past, -n, |past|) == w[..n];
    forall t | 0 <= t < sums.Length ensures EndsWith(past + [t], w) <==> t == w[n] && isMatch {
      PrefixMatch(w, past, t);
    }
    sums[w[n]] := Add(sums[w[n]], if isMatch then NegInf else NEUTRAL);
  }

  class NoBadWords {
    const words: seq<Word>
    var wordBias: Option<seq<Logit>>

    constructor (words: seq<Word>)
      ensures this.words == words && wordBias == None
    {
      this.words := words;
      wordBias := None;
    }

    /** The bias, once there is one, is that of a vocabulary with all the words. */
    ghost predicate Valid()
      reads this
    {
      wordBias.Some? ==> InVocabulary(words, |wordBias.value|) && wordBias.value == WordBias(words, |wordBias.value|)
    }

    /** The token ids to complain about. */
    method CheckTokenIdsBounds(vocab: nat) returns (invalid: seq<int>)
      ensures forall t :: t in invalid <==> !(0 <= t < vocab) && exists i :: 0 <= i < |words| && t in words[i]
      ensures invalid == [] <==> InVocabulary(words, vocab)
    {
      invalid := [];
      for i := 0 to |words|
        invariant forall t :: t in invalid <==> !(0 <= t < vocab) && exists k :: 0 <= k < i && t in words[k]
      {
        ghost var before := invalid;
        for j := 0 to |words[i]|
          invariant forall t :: t in invalid <==> t in before || (!(0 <= t < vocab) && t in words[i][..j])
        {
          if words[i][j] < 0 || words[i][j] >= vocab {
            invalid := invalid + [words[i][j]];
          }
        }
        assert words[i][..|words[i]|] == words[i];
      }
      if invalid == [] {
        forall i, j | 0 <= i < |words| && 0 <= j < |words[i]| ensures 0 <= words[i][j] < vocab {
          assert words[i][j] in words[i] && words[i][j] !in invalid;
        }
      } else {
        var t := invalid[0];
        assert t in invalid;
      }
    }

    method InitWordBias(vocab: nat) returns (ok: bool)
      requires wordBias.None?
      modifies this
      ensures ok <==> InVocabulary(words, vocab)
      ensures wordBias == if ok then Some(WordBias(words, vocab)) else None
    {
      var invalid := CheckTokenIdsBounds(vocab);
      ok := invalid == [];
      if !ok {
        return;
      }
      var bias := new Logit[vocab](_ => NEUTRAL);
      for i := 0 to |words|
        invariant wordBias.None? && fresh(bias)
        invariant forall t :: 0 <= t < vocab ==> bias[t] == if [t] in words[..i] then NegInf else NEUTRAL
      {
        if |words[i]| == 1 {
          assert words[i] == [words[i][0]];
          bias[words[i][0]] := NegInf;
        }
      }
      assert words[..|words|] == words;
      assert bias[..] == WordBias(words, vocab);
      wordBias := Some(bias[..]);
    }

    /** The bias of the longer words; an empty word cannot be indexed. */
    method LastTokenBias(past: seq<int>, vocab: nat) returns (bias: Option<seq<Logit>>)
      requires InVocabulary(words, vocab)
      ensures bias.None? <==> [] in words
      ensures bias.Some? ==> |bias.value| == vocab && forall t :: 0 <= t < vocab ==>
                bias.value[t] == if CompletesLong(words, |words|, past, t) then NegInf else NEUTRAL
    {
      var sums := new Logit[vocab](_ => NEUTRAL);
      for i := 0 to |words|
        invariant [] !in words[..i] && fresh(sums)
        invariant forall t :: 0 <= t < vocab ==> sums[t] == if CompletesLong(words, i, past, t) then NegInf else NEUTRAL
      {
        var w := words[i];
        if |w| != 1 && |w| <= |past| + 1 {
          if w == [] {
            return None;
          }
          MarkWord(sums, w, past);
        }
      }
      assert words[..|words|] == words;
      bias := Some(sums[..]);
    }

    /** The vocabulary must not change between calls. */
    method Process(past: seq<int>, logits: seq<Logit>) returns (r: Access<seq<Logit>>)
      requires Valid() && (wordBias.Some? ==> |wordBias.value| == |logits|)
      modifies this
      ensures Valid() && (wordBias.Some? ==> |wordBias.value| == |logits|)
      ensures r == if !InVocabulary(words, |logits|) then ValueError
                   else if [] in words then IndexError
                   else Value(Processed(words, past, logits))
      // minus infinity for the tokens that complete a bad word, and no other logit changes
      ensures r.Value? ==> |r.value| == |logits| && forall t :: 0 <= t < |logits| ==>
                r.value[t] == if Completes(words, past, t) then NegInf else logits[t]
    {
      if wordBias.None? {
        var ok := InitWordBias(|logits|);
        if !ok {
          return ValueError;
        }
      }
      var bias := LastTokenBias(past, |logits|);
      if bias.None? {
        return IndexError;
      }
      var short, long := wordBias.value, bias.value;
      var sum := seq(|logits|, t requires 0 <= t < |logits| => Add(Add(logits[t], short[t]), long[t]));
      forall t | 0 <= t < |logits| ensures sum[t] == Processed(words, past, logits)[t] {
        ShortOrLong(words, past, t);
      }
      assert sum == Processed(words, past, logits);
      r := Value(sum);
    }
  }
}
