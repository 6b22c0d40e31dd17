/**
 * What the CTC decoder does with the beam search's best hypotheses: token ids
 * become characters, each hypothesis is stripped, empty and blank-only
 * fragments are dropped, the rest are joined and the reading is
 * canonicalised (spaces removed, decimal comma turned into a point).
 */
module Decoder {
  import opened Wrappers

  /** The reserved CTC blank, listed first by the label encoder. */
  const BlankToken: char := '-'

  /** The silence token the beam search is configured with. */
  const SilToken: char := ' '

  /** The characters the meter-reading recognizer builds its decoder with. */
  const MeterCharacters: seq<char> := " 0123456789.,"

  /** Python's `str.isspace` for one character: what `str.strip()` removes. */
  predicate IsSpace(c: char): (b: bool)
    ensures c == SilToken ==> b
    ensures c == BlankToken || '0' <= c <= '9' ==> !b
  {
    || ('\t' <= c <= '\r')
    || ('\U{1C}' <= c <= '\U{1F}')
    || c == ' ' || c == '\U{85}' || c == '\U{A0}' || c == '\U{1680}'
    || ('\U{2000}' <= c <= '\U{200A}')
    || c == '\U{2028}' || c == '\U{2029}' || c == '\U{202F}' || c == '\U{205F}' || c == '\U{3000}'
  }

  /** Of the recognizer's vocabulary and the blank, only the silence token is whitespace. */
  lemma VocabularyWhitespace(c: char)
    requires c in MeterCharacters || c == BlankToken
    ensures IsSpace(c) <==> c == SilToken
  {
  }

  /** Number of occurrences of `c` in `s`. */
  function Count(s: string, c: char): (n: nat)
    ensures n <= |s|
    ensures n == 0 <==> c !in s
  {
    if s == [] then 0 else (if s[0] == c then 1 else 0) + Count(s[1..], c)
  }

  // ----- str.strip() -----

  /** `s.lstrip()`: drops the leading whitespace. */
  function TrimLeft(s: string): (r: string)
    ensures |r| <= |s| && r == s[|s| - |r|..]
    ensures forall i :: 0 <= i < |s| - |r| ==> IsSpace(s[i])
    ensures r != [] ==> !IsSpace(r[0])
  {
    if s != [] && IsSpace(s[0]) then
      var r := TrimLeft(s[1..]);
      assert forall i :: 1 <= i < |s| - |r| ==> s[i] == s[1..][i - 1];
      r
    else s
  }

  /** `s.rstrip()`: drops the trailing whitespace. */
  function TrimRight(s: string): (r: string)
    ensures |r| <= |s| && r == s[..|r|]
    ensures forall i :: |r| <= i < |s| ==> IsSpace(s[i])
    ensures r != [] ==> !IsSpace(r[|r| - 1])
  {
    if s != [] && IsSpace(s[|s| - 1]) then
      var r := TrimRight(s[..|s| - 1]);
      assert forall i :: |r| <= i < |s| - 1 ==> s[i] == s[..|s| - 1][i];
      r
    else s
  }

  /** Where `s.strip()` starts: the number of leading whitespace characters. */
  function StripStart(s: string): (k: nat)
    ensures k <= |s|
    ensures forall i :: 0 <= i < k ==> IsSpace(s[i])
    ensures k < |s| ==> !IsSpace(s[k])
  {
    |s| - |TrimLeft(s)|
  }

  /** A prefix of a suffix is a slice; the rest of the suffix is the rest of the sequence. */
  lemma PrefixOfSuffix<T>(s: seq<T>, k: nat, m: nat)
    requires k + m <= |s|
    ensures s[k..][..m] == s[k..k + m]
    ensures forall i :: k + m <= i < |s| ==> s[i] == s[k..][i - k]
  {
  }

  /**
   * `s.strip()`: the slice of `s` from `StripStart(s)` that ends with a
   * non-whitespace character and leaves only whitespace after it.
   */
  function Strip(s: string): (r: string)
    ensures StripStart(s) + |r| <= |s| && r == s[StripStart(s)..StripStart(s) + |r|]
    ensures forall i :: StripStart(s) + |r| <= i < |s| ==> IsSpace(s[i])
    ensures r == [] || (!IsSpace(r[0]) && !IsSpace(r[|r| - 1]))
  {
    var t := TrimLeft(s);
    var r := TrimRight(t);
    PrefixOfSuffix(s, |s| - |t|, |r|);
    r
  }

  /** Strip is determined by its two ends: the first and the last non-whitespace character. */
  lemma StripIs(s: string, k: nat, m: nat)
    requires k < m <= |s|
    requires forall i :: 0 <= i < k ==> IsSpace(s[i])
    requires !IsSpace(s[k]) && !IsSpace(s[m - 1])
    requires forall i :: m <= i < |s| ==> IsSpace(s[i])
    ensures Strip(s) == s[k..m]
  {
  }

  /** A string of whitespace strips to nothing. */
  lemma StripIsEmpty(s: string)
    requires forall i :: 0 <= i < |s| ==> IsSpace(s[i])
    ensures Strip(s) == ""
  {
  }

  // ----- str.replace and the reading's canonical form -----

  /** `s.replace(c, with)` for a one-character pattern. */
  function Replace(s: string, c: char, with: string): (r: string)
    ensures c !in with ==> c !in r
    ensures forall x :: x in r ==> x in s || x in with
  {
    if s == [] then [] else (if s[0] == c then with else [s[0]]) + Replace(s[1..], c, with)
  }

  lemma {:induction false} ReplaceAppend(a: string, b: string, c: char, with: string)
    ensures Replace(a + b, c, with) == Replace(a, c, with) + Replace(b, c, with)
  {
    if a != [] {
      assert (a + b)[1..] == a[1..] + b;
      ReplaceAppend(a[1..], b, c, with);
    } else {
      assert a + b == b;
    }
  }

  /** Replacing a character that does not occur changes nothing. */
  lemma {:induction false} ReplaceAbsent(s: string, c: char, with: string)
    requires c !in s
    ensures Replace(s, c, with) == s
  {
    if s != [] {
      ReplaceAbsent(s[1..], c, with);
    }
  }

  /** `text.replace(' ', '').replace(',', '.')`. */
  function Canonicalize(s: string): (r: string)
    ensures ' ' !in r && ',' !in r
  {
    Replace(Replace(s, ' ', ""), ',', ".")
  }

  /** What canonicalisation makes of one character. */
  function CanonicalChar(c: char): string
  {
    if c == ' ' then "" else if c == ',' then "." else [c]
  }

  /**
   * Reference definition: the reading character by character, in order;
   * a space disappears, a comma becomes a point, anything else is kept.
   */
  function CanonicalForm(s: string): (r: string)
    ensures |r| == |s| - Count(s, ' ')
  {
    if s == [] then [] else CanonicalChar(s[0]) + CanonicalForm(s[1..])
  }

  /** The two successive `replace` passes agree with the one-pass reference. */
  lemma {:induction false} CanonicalizeIsPerCharacter(s: string)
    ensures Canonicalize(s) == CanonicalForm(s)
    ensures |Canonicalize(s)| == |s| - Count(s, ' ')
  {
    if s != [] {
      CanonicalizeIsPerCharacter(s[1..]);
      var head := if s[0] == ' ' then "" else [s[0]];
      assert s == [s[0]] + s[1..];
      assert Replace(s, ' ', "") == head + Replace(s[1..], ' ', "");
      ReplaceAppend(head, Replace(s[1..], ' ', ""), ',', ".");
      assert Replace(head, ',', ".") == CanonicalChar(s[0]);
    }
  }

  /** Canonicalisation works piece by piece: it commutes with concatenation. */
  lemma CanonicalizeAppend(a: string, b: string)
    ensures Canonicalize(a + b) == Canonicalize(a) + Canonicalize(b)
  {
    ReplaceAppend(a, b, ' ', "");
    ReplaceAppend(Replace(a, ' ', ""), Replace(b, ' ', ""), ',', ".");
  }

  /** A string is left unchanged exactly when it has no space and no comma. */
  lemma CanonicalFixedPoints(s: string)
    ensures Canonicalize(s) == s <==> ' ' !in s && ',' !in s
  {
    if ' ' !in s && ',' !in s {
      ReplaceAbsent(s, ' ', "");
      ReplaceAbsent(s, ',', ".");
    }
  }

  /** Canonicalising a canonical reading changes nothing. */
  lemma CanonicalizeIdempotent(s: string)
    ensures Canonicalize(Canonicalize(s)) == Canonicalize(s)
  {
    CanonicalFixedPoints(Canonicalize(s));
  }

  // ----- one batch item: list comprehensions, join, canonicalisation -----

  /** A stripped fragment the decoder discards: empty, or exactly the blank. */
  predicate Dropped(t: string)
  {
    t == "" || t == [BlankToken]
  }

  /** `[t.strip() for t in texts]`. */
  function StripAll(texts: seq<string>): (r: seq<string>)
    ensures |r| == |texts| && forall i :: 0 <= i < |texts| ==> r[i] == Strip(texts[i])
  {
    if texts == [] then [] else [Strip(texts[0])] + StripAll(texts[1..])
  }

  /** `[t for t in texts if t != '' and t != '-']`. */
  function KeepFragments(texts: seq<string>): (r: seq<string>)
    ensures |r| <= |texts|
    ensures forall i :: 0 <= i < |r| ==> !Dropped(r[i])
    ensures forall t :: t in r <==> t in texts && !Dropped(t)
  {
    if texts == [] then [] else (if Dropped(texts[0]) then [] else [texts[0]]) + KeepFragments(texts[1..])
  }

  /** `''.join(parts)`. */
  function Join(parts: seq<string>): (r: string)
    ensures |parts| == 1 ==> r == parts[0]
    ensures forall p, c :: p in parts && c in p ==> c in r
    ensures forall c :: c in r ==> exists p :: p in parts && c in p
  {
    if parts == [] then "" else parts[0] + Join(parts[1..])
  }

  /** Lines 30 to 33 of the decoder on the hypotheses' texts of one batch item. */
  function CleanFragments(texts: seq<string>): (r: string)
    ensures ' ' !in r && ',' !in r
  {
    Canonicalize(Join(KeepFragments(StripAll(texts))))
  }

  /** What one hypothesis text contributes to its item's reading. */
  function Contribution(t: string): string
  {
    if Dropped(Strip(t)) then "" else CanonicalForm(Strip(t))
  }

  /** Reference definition: the contributions of the fragments, in their order. */
  function Contributions(texts: seq<string>): string
  {
    if texts == [] then "" else Contribution(texts[0]) + Contributions(texts[1..])
  }

  lemma {:induction false} StripAllAppend(a: seq<string>, b: seq<string>)
    ensures StripAll(a + b) == StripAll(a) + StripAll(b)
  {
    if a != [] {
      assert (a + b)[1..] == a[1..] + b;
      StripAllAppend(a[1..], b);
    } else {
      assert a + b == b;
    }
  }

  lemma {:induction false} KeepFragmentsAppend(a: seq<string>, b: seq<string>)
    ensures KeepFragments(a + b) == KeepFragments(a) + KeepFragments(b)
  {
    if a != [] {
      assert (a + b)[1..] == a[1..] + b;
      KeepFragmentsAppend(a[1..], b);
    } else {
      assert a + b == b;
    }
  }

  lemma {:induction false} JoinAppend(a: seq<string>, b: seq<string>)
    ensures Join(a + b) == Join(a) + Join(b)
  {
    if a != [] {
      assert (a + b)[1..] == a[1..] + b;
      JoinAppend(a[1..], b);
    } else {
      assert a + b == b;
    }
  }

  /** The reading of two runs of fragments is the reading of the first followed by that of the second. */
  lemma CleanFragmentsAppend(a: seq<string>, b: seq<string>)
    ensures CleanFragments(a + b) == CleanFragments(a) + CleanFragments(b)
  {
    StripAllAppend(a, b);
    KeepFragmentsAppend(StripAll(a), StripAll(b));
    JoinAppend(KeepFragments(StripAll(a)), KeepFragments(StripAll(b)));
    CanonicalizeAppend(Join(KeepFragments(StripAll(a))), Join(KeepFragments(StripAll(b))));
  }

  /** One fragment on its own: nothing if dropped, otherwise its stripped text canonicalised. */
  lemma CleanSingleFragment(t: string)
    ensures CleanFragments([t]) == Contribution(t)
  {
    assert StripAll([t]) == [Strip(t)];
    if !Dropped(Strip(t)) {
      assert Join([Strip(t)]) == Strip(t);
      CanonicalizeIsPerCharacter(Strip(t));
    }
  }

  /**
   * The filter drops exactly the stripped texts that would add nothing to the
   * reading: a stripped text is dropped iff, on its own, it reads as empty.
   */
  lemma DroppedIffSilent(t: string)
    requires Strip(t) == t
    ensures Dropped(t) <==> CleanFragments([t]) == ""
  {
    CleanSingleFragment(t);
    if !Dropped(t) {
      assert t[0] != ' ';
      assert CanonicalForm(t) == CanonicalChar(t[0]) + CanonicalForm(t[1..]);
      assert CanonicalChar(t[0]) != "";
    }
  }

  /**
   * The decoder's clean-up agrees with the fragment-by-fragment reference:
   * surviving fragments keep their order and their non-space characters.
   */
  lemma {:induction false} CleanFragmentsIsFragmentwise(texts: seq<string>)
    ensures CleanFragments(texts) == Contributions(texts)
  {
    if texts != [] {
      assert texts == [texts[0]] + texts[1..];
      CleanFragmentsAppend([texts[0]], texts[1..]);
      CleanSingleFragment(texts[0]);
      CleanFragmentsIsFragmentwise(texts[1..]);
    }
  }

  /** An empty or blank-only fragment, wherever it stands, changes nothing. */
  lemma DroppedFragmentContributesNothing(a: seq<string>, t: string, b: seq<string>)
    requires Dropped(Strip(t))
    ensures CleanFragments(a + [t] + b) == CleanFragments(a + b)
  {
    CleanFragmentsAppend(a + [t], b);
    CleanFragmentsAppend(a, [t]);
    CleanSingleFragment(t);
    CleanFragmentsAppend(a, b);
  }

  /** The reading is the joined surviving text less its spaces. */
  lemma CleanFragmentsLength(texts: seq<string>)
    ensures var joined := Join(KeepFragments(StripAll(texts)));
            |CleanFragments(texts)| == |joined| - Count(joined, ' ')
  {
    CanonicalizeIsPerCharacter(Join(KeepFragments(StripAll(texts))));
  }

  /** A fragment with nothing dropped or blank after stripping reads as its canonicalised stripped text. */
  lemma CleanKeptFragment(t: string)
    requires !Dropped(Strip(t))
    ensures CleanFragments([t]) == Canonicalize(Strip(t))
  {
    CleanSingleFragment(t);
    CanonicalizeIsPerCharacter(Strip(t));
  }

  /** Canonicalising a single comma gives a point. */
  lemma CanonicalizeComma()
    ensures Canonicalize(",") == "."
  {
  }

  /** Digits around one comma: `a + "," + b` canonicalises to `a + "." + b`. */
  lemma CanonicalizeDecimal(a: string, b: string)
    requires ' ' !in a && ',' !in a && ' ' !in b && ',' !in b
    ensures Canonicalize(a + "," + b) == a + "." + b
  {
    CanonicalizeAppend(a + ",", b);
    CanonicalizeAppend(a, ",");
    CanonicalFixedPoints(a);
    CanonicalFixedPoints(b);
    CanonicalizeComma();
  }

  /** The example readings split at their comma, for `CanonicalizeDecimal`. */
  lemma SplitAtComma()
    ensures "12,34" == "12" + "," + "34" && "12.34" == "12" + "." + "34"
    ensures "1,234" == "1" + "," + "234" && "1.234" == "1" + "." + "234"
  {
  }

  /** Canonical form of the stripped `" 12,34 "`, used by `CleanFragmentsExample`. */
  lemma CanonicalPaddedReading()
    ensures Canonicalize("12,34") == "12.34"
  {
    SplitAtComma();
    CanonicalizeDecimal("12", "34");
  }

  /** Canonical form of the stripped `" 1,234"`, used by `CleanFragmentsLeadingSpaceExample`. */
  lemma CanonicalLeadingSpaceReading()
    ensures Canonicalize("1,234") == "1.234"
  {
    SplitAtComma();
    CanonicalizeDecimal("1", "234");
  }

  /** `" 12,34 "` stripped, used by `CleanFragmentsExample`. */
  lemma StripPaddedReading()
    ensures Strip(" 12,34 ") == "12,34"
  {
    StripIs(" 12,34 ", 1, 6);
  }

  /** `" 1,234"` stripped, used by `CleanFragmentsLeadingSpaceExample`. */
  lemma StripLeadingSpaceReading()
    ensures Strip(" 1,234") == "1,234"
  {
    StripIs(" 1,234", 1, 6);
  }

  /** `" 12,34 "` reads as `"12.34"`. */
  lemma CleanFragmentsExample()
    ensures CleanFragments([" 12,34 "]) == "12.34"
  {
    StripPaddedReading();
    CanonicalPaddedReading();
    CleanKeptFragment(" 12,34 ");
  }

  /** `" 1,234"` reads as `"1.234"`. */
  lemma CleanFragmentsLeadingSpaceExample()
    ensures CleanFragments([" 1,234"]) == "1.234"
  {
    StripLeadingSpaceReading();
    CanonicalLeadingSpaceReading();
    CleanKeptFragment(" 1,234");
  }

  /** Blank and whitespace-only hypotheses vanish: `["-", " 1,234", "  "]` reads as `"1.234"`. */
  lemma CleanFragmentsBlankExample()
    ensures CleanFragments(["-", " 1,234", "  "]) == "1.234"
  {
    StripIs("-", 0, 1);
    StripIsEmpty("  ");
    ExampleFragmentLists();
    DroppedFragmentContributesNothing([], "-", [" 1,234", "  "]);
    DroppedFragmentContributesNothing([" 1,234"], "  ", []);
    CleanFragmentsLeadingSpaceExample();
  }

  /** Only whole blank fragments are dropped: a `-` inside a longer fragment reaches the reading. */
  lemma InnerBlankIsKept()
    ensures CleanFragments(["1-2"]) == "1-2"
  {
    StripIs("1-2", 0, 3);
    assert Strip("1-2") == "1-2";
    CanonicalFixedPoints("1-2");
    CleanKeptFragment("1-2");
  }

  /** The list splits `CleanFragmentsBlankExample` inserts its dropped texts at. */
  lemma ExampleFragmentLists()
    ensures [] + ["-"] + [" 1,234", "  "] == ["-", " 1,234", "  "]
    ensures [] + [" 1,234", "  "] == [" 1,234"] + ["  "] + []
    ensures [" 1,234"] + [] == [" 1,234"]
  {
  }

  // ----- token ids -----

  /** The best path of one beam-search hypothesis: its token ids. */
  datatype Hypothesis = Hypothesis(tokens: seq<nat>)

  /** Every token id of the hypothesis indexes the table. */
  predicate TokensInRange(table: seq<char>, h: Hypothesis)
  {
    forall k :: 0 <= k < |h.tokens| ==> h.tokens[k] < |table|
  }

  predicate ItemInRange(table: seq<char>, item: seq<Hypothesis>)
  {
    forall i :: 0 <= i < |item| ==> TokensInRange(table, item[i])
  }

  /** The label encoder's index-to-token table: the blank first, then the characters. */
  function IndexTable(characters: seq<char>): (t: seq<char>)
    ensures |t| == |characters| + 1 && t[0] == BlankToken
    ensures forall i :: 0 <= i < |characters| ==> t[i + 1] == characters[i]
  {
    [BlankToken] + characters
  }

  /** `''.join(encoder.batch_decode(z.tokens))`. */
  function HypothesisText(table: seq<char>, h: Hypothesis): (r: string)
    requires TokensInRange(table, h)
    ensures |r| == |h.tokens| && forall k :: 0 <= k < |r| ==> r[k] == table[h.tokens[k]]
    decreases |h.tokens|
  {
    if h.tokens == [] then "" else [table[h.tokens[0]]] + HypothesisText(table, Hypothesis(h.tokens[1..]))
  }

  /** `[''.join(encoder.batch_decode(z.tokens)) for z in item]`, before stripping. */
  function HypothesisTexts(table: seq<char>, item: seq<Hypothesis>): (r: seq<string>)
    requires ItemInRange(table, item)
    ensures |r| == |item| && forall i :: 0 <= i < |item| ==> r[i] == HypothesisText(table, item[i])
  {
    if item == [] then [] else [HypothesisText(table, item[0])] + HypothesisTexts(table, item[1..])
  }

  /** The reading `decode` produces for one batch item. */
  function ItemText(table: seq<char>, item: seq<Hypothesis>): (r: string)
    requires ItemInRange(table, item)
    ensures r == Contributions(HypothesisTexts(table, item))
    ensures ' ' !in r && ',' !in r
  {
    CleanFragmentsIsFragmentwise(HypothesisTexts(table, item));
    CleanFragments(HypothesisTexts(table, item))
  }

  /** The recognizer's table: index 0 is the blank, then space, the digits, point and comma. */
  lemma MeterTable()
    ensures IndexTable(MeterCharacters) == "- 0123456789.,"
  {
  }

  /** Token ids 1 3 4 13 5 6 1 of the recognizer's table spell `" 12,34 "`. */
  lemma MeterTokensExample()
    ensures TokensInRange(IndexTable(MeterCharacters), Hypothesis([1, 3, 4, 13, 5, 6, 1]))
    ensures HypothesisText(IndexTable(MeterCharacters), Hypothesis([1, 3, 4, 13, 5, 6, 1])) == " 12,34 "
  {
    MeterTable();
    var text := HypothesisText("- 0123456789.,", Hypothesis([1, 3, 4, 13, 5, 6, 1]));
    assert text[0] == ' ' && text[1] == '1' && text[2] == '2' && text[3] == ',';
    assert text[4] == '3' && text[5] == '4' && text[6] == ' ';
  }

  /** Decoding those tokens as the only hypothesis of a batch item reads `"12.34"`. */
  lemma MeterItemExample()
    ensures ItemText(IndexTable(MeterCharacters), [Hypothesis([1, 3, 4, 13, 5, 6, 1])]) == "12.34"
  {
    var table := IndexTable(MeterCharacters);
    var h := Hypothesis([1, 3, 4, 13, 5, 6, 1]);
    MeterTokensExample();
    assert HypothesisTexts(table, [h]) == [" 12,34 "];
    CleanFragmentsExample();
  }

  /** The decoder object: its fixed tokens and its own copy of the character list. */
  class CTCDecoder {
    const blankToken: char
    const silToken: char
    const characters: seq<char>

    constructor (characters: array<char>)
      ensures blankToken == BlankToken && silToken == SilToken
      ensures this.characters == characters[..]
    {
      blankToken := BlankToken;
      silToken := SilToken;
      this.characters := characters[..];
    }

    /**
     * `decode` after the beam search: `None` or an empty result gives no
     * readings; otherwise one reading per batch element, in batch order.
     */
    method Decode(beam: Option<seq<seq<Hypothesis>>>, batchSize: nat) returns (result: seq<string>)
      requires beam.Some? && beam.value != [] ==>
                 batchSize <= |beam.value| &&
                 forall b :: 0 <= b < batchSize ==> ItemInRange(IndexTable(characters), beam.value[b])
      ensures beam.None? || beam.value == [] ==> result == []
      ensures beam.Some? && beam.value != [] ==>
                |result| == batchSize &&
                forall b :: 0 <= b < batchSize ==> result[b] == ItemText(IndexTable(characters), beam.value[b])
      ensures forall b :: 0 <= b < |result| ==> ' ' !in result[b] && ',' !in result[b]
    {
      result := [];
      if beam.None? || |beam.value| == 0 {
        return;
      }
      var table := IndexTable(characters);
      for b := 0 to batchSize
        invariant |result| == b
        invariant forall k :: 0 <= k < b ==> result[k] == ItemText(table, beam.value[k])
      {
        var item := beam.value[b];
        var texts := StripAll(HypothesisTexts(table, item));
        texts := KeepFragments(texts);
        var text := Join(texts);
        text := Canonicalize(text);
        assert text == ItemText(table, item);
        result := result + [text];
      }
    }
  }

  /** Changing the caller's list after construction leaves the decoder's characters as they were. */
  method ConstructThenMutate(list: array<char>, i: nat, c: char) returns (d: CTCDecoder)
    requires i < list.Length
    modifies list
    ensures d.characters == old(list[..])
    ensures list[..] == old(list[..])[i := c]
  {
    d := new CTCDecoder(list);
    list[i] := c;
  }
}
