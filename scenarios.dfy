/**
 * Worked examples: concrete inputs of `finalize` and `extractGeneral` and
 * the results the normalisation gives them, including two inputs on which
 * a second `finalize` pass changes the text again.
 */
module Scenarios {
  import opened Wrappers
  import opened Text
  import opened Extract
  import opened Finalizer

  /** The cleaning steps leave "hello" alone. */
  lemma HelloIsClean()
    ensures Clean("hello") == "hello"
  {
    CleanKeepsPlain("hello");
  }

  /** "hello" is one trimmed sentence. */
  lemma HelloIsSentence()
    ensures IsTrimmed("hello") && SingleSentence("hello")
  {
    SentenceWithoutInnerStop("hello");
  }

  /** "hello" does not end a sentence, so a period is appended. */
  lemma HelloPunctuated()
    ensures IsTrimmed("hello") && SingleSentence("hello") && Punctuate("hello") == "hello."
  {
    HelloIsSentence();
  }

  /** `finalize("hello")` is "hello.". */
  lemma FinalizeHello()
    ensures Finalize("hello") == "hello."
  {
    HelloIsClean();
    HelloIsSentence();
    FinalizeOfSentence("hello", "hello");
    HelloPunctuated();
  }

  /** Proof helper: the curly-quoted word and its straightened form, spelled out. */
  lemma CurlyQuotedSpelled()
    ensures "\U{201C}" + "x" + "\U{201D}" == "\U{201C}x\U{201D}"
    ensures "\"" + "x" + "\"" == "\"x\""
  {
  }

  /** Cleaning a curly-quoted word only straightens its quotes. */
  lemma CurlyQuotedCleaned()
    ensures Clean("\U{201C}x\U{201D}") == "\"x\""
  {
    CurlyQuotedSpelled();
    CleanOfCurlyQuoted("x");
  }

  /** The straightened word is one trimmed sentence. */
  lemma StraightQuotedIsSentence()
    ensures IsTrimmed("\"x\"") && SingleSentence("\"x\"")
  {
    SentenceWithoutInnerStop("\"x\"");
  }

  /** The straightened word gets a period. */
  lemma StraightQuotedPunctuated()
    requires IsTrimmed("\"x\"") && SingleSentence("\"x\"")
    ensures Punctuate("\"x\"") == "\"x\"."
  {
  }

  /** `finalize` on a curly-quoted word: the quotes survive, straightened, and a period is added. */
  lemma FinalizeCurlyQuoted()
    ensures Finalize("\U{201C}x\U{201D}") == "\"x\"."
  {
    CurlyQuotedCleaned();
    StraightQuotedIsSentence();
    FinalizeOfSentence("\U{201C}x\U{201D}", "\"x\"");
    StraightQuotedPunctuated();
  }

  /** "x\"." is one trimmed sentence that needs no period. */
  lemma QuoteInsideIsSentence()
    ensures IsTrimmed("x\".") && SingleSentence("x\".") && Punctuate("x\".") == "x\"."
  {
    SentenceWithoutInnerStop("x\".");
  }

  /** The leading straight quote of "\"x\"." is stripped by the cleaning steps. */
  lemma StraightQuotedCleaned()
    ensures Clean("\"x\".") == "x\"."
  {
    assert "\"" + "x\"." == "\"x\".";
    CleanOfLeadingQuote("x\".");
  }

  /** `finalize` on the result of the previous lemma: the now straight leading quote is stripped. */
  lemma FinalizeStraightQuoted()
    ensures Finalize("\"x\".") == "x\"."
  {
    StraightQuotedCleaned();
    QuoteInsideIsSentence();
    FinalizeOfSentence("\"x\".", "x\".");
  }

  /**
   * `finalize` is not idempotent: curly quotes become straight only after
   * the straight quotes have been stripped, so a second pass strips them.
   */
  lemma FinalizeNotIdempotent()
    ensures Finalize(Finalize("\U{201C}x\U{201D}")) != Finalize("\U{201C}x\U{201D}")
  {
    FinalizeCurlyQuoted();
    FinalizeStraightQuoted();
  }

  /** "Paris." is clean. */
  lemma ParisIsClean()
    ensures Clean("Paris.") == "Paris."
  {
    assert !MatchAtCI("Paris.", 0, EnglishPreamble) by { assert Fold('a') != Fold('o'); }
    CleanKeepsPlain("Paris.");
  }

  /** "Paris." is one trimmed sentence that needs no period. */
  lemma ParisPunctuated()
    ensures IsTrimmed("Paris.") && SingleSentence("Paris.") && Punctuate("Paris.") == "Paris."
  {
    SentenceWithoutInnerStop("Paris.");
  }

  /** `finalize("Paris.")` is "Paris.". */
  lemma FinalizeParis()
    ensures Finalize("Paris.") == "Paris."
  {
    ParisIsClean();
    ParisPunctuated();
    FinalizeOfSentence("Paris.", "Paris.");
  }

  /** Proof helper: the two-sentence reply and its parts, spelled out. */
  lemma TwoSentencesSpelled()
    ensures "Paris." + " Lyon" == "Paris. Lyon"
  {
  }

  /** "Paris. Lyon" is left alone by the cleaning steps. */
  lemma TwoSentencesAreClean()
    ensures Clean("Paris. Lyon") == "Paris. Lyon"
  {
    assert !MatchAtCI("Paris. Lyon", 0, EnglishPreamble) by { assert Fold('a') != Fold('o'); }
    CleanKeepsPlain("Paris. Lyon");
  }

  /** `finalize("Paris. Lyon")` keeps only the first sentence, "Paris.". */
  lemma FinalizeTwoSentences()
    ensures Finalize("Paris. Lyon") == "Paris."
  {
    TwoSentencesAreClean();
    TwoSentencesSpelled();
    ParisPunctuated();
    FinalizeCutsFirstSentence("Paris. Lyon", "Paris.", " Lyon");
    TrimOfTrimmed("Paris.");
  }

  /** "Réponse possible" is the French preamble with a capital R; "Paris." starts with neither preamble. */
  lemma FrenchReplyParts()
    ensures MatchAtCI("Réponse possible", 0, FrenchPreamble)
    ensures !MatchAtCI("Paris.", 0, EnglishPreamble) && !MatchAtCI("Paris.", 0, FrenchPreamble)
  {
    assert Fold('R') == Fold('r');
    assert Fold('a') != Fold('o');
    assert Fold('P') != Fold('r');
  }

  /** The preamble, a colon and a space are dropped in front of "Paris.". */
  lemma FrenchReplyDropsPreamble()
    ensures Finalize("Réponse possible" + "" + ":" + " " + "Paris.") == Finalize("Paris.")
  {
    FrenchReplyParts();
    FinalizeDropsPreamble(FrenchPreamble, "Réponse possible", "", " ", "Paris.");
  }

  /** `finalize("Réponse possible: Paris.")` is "Paris.": the French preamble is dropped whatever its case. */
  lemma FinalizeFrenchReply()
    ensures Finalize("Réponse possible: Paris.") == "Paris."
  {
    assert "Réponse possible" + "" + ":" + " " + "Paris." == "Réponse possible: Paris.";
    FrenchReplyDropsPreamble();
    FinalizeParis();
  }

  /** "Bonjour!" is clean. */
  lemma BonjourIsClean()
    ensures Clean("Bonjour!") == "Bonjour!"
  {
    CleanKeepsPlain("Bonjour!");
  }

  /** "Bonjour!" is one trimmed sentence that needs no period. */
  lemma BonjourPunctuated()
    ensures IsTrimmed("Bonjour!") && SingleSentence("Bonjour!") && Punctuate("Bonjour!") == "Bonjour!"
  {
    SentenceWithoutInnerStop("Bonjour!");
  }

  /** `finalize("Bonjour!")` is "Bonjour!". */
  lemma FinalizeBonjour()
    ensures Finalize("Bonjour!") == "Bonjour!"
  {
    BonjourIsClean();
    BonjourPunctuated();
    FinalizeOfSentence("Bonjour!", "Bonjour!");
  }

  /** `finalize("\"Bonjour!\"")` is "Bonjour!": the straight quotes go and no period is added after '!'. */
  lemma FinalizeQuotedGreeting()
    ensures Finalize("\"Bonjour!\"") == "Bonjour!"
  {
    assert "\"" + "Bonjour!" + "\"" == "\"Bonjour!\"";
    QuotedGreetingDropsQuotes();
    FinalizeBonjour();
  }

  /** The quotes around "Bonjour!" are dropped. */
  lemma QuotedGreetingDropsQuotes()
    ensures Finalize("\"" + "Bonjour!" + "\"") == Finalize("Bonjour!")
  {
    assert !MatchAtCI("Bonjour!", 0, EnglishPreamble) by { assert Fold('B') != Fold('p'); }
    assert !MatchAtCI("Bonjour!", 0, FrenchPreamble) by { assert Fold('B') != Fold('r'); }
    FinalizeDropsQuotes("Bonjour!");
  }

  /** "x." is clean. */
  lemma XIsClean()
    ensures Clean("x.") == "x."
  {
    CleanKeepsPlain("x.");
  }

  /** "x." is one trimmed sentence that needs no period. */
  lemma XPunctuated()
    ensures IsTrimmed("x.") && SingleSentence("x.") && Punctuate("x.") == "x."
  {
    SentenceWithoutInnerStop("x.");
  }

  /** `finalize("possible answer: x.")` is "x.". */
  lemma FinalizeSinglePreamble()
    ensures Finalize("possible answer: x.") == "x."
  {
    assert EnglishPreamble + "" + ":" + " " + "x." == "possible answer: x.";
    SinglePreambleDropped();
    FinalizeX();
  }

  /** The English preamble, a colon and a space are dropped in front of "x.". */
  lemma SinglePreambleDropped()
    ensures Finalize(EnglishPreamble + "" + ":" + " " + "x.") == Finalize("x.")
  {
    assert MatchAtCI(EnglishPreamble, 0, EnglishPreamble);
    FinalizeDropsPreamble(EnglishPreamble, EnglishPreamble, "", " ", "x.");
  }

  /** `finalize("x.")` is "x.". */
  lemma FinalizeX()
    ensures Finalize("x.") == "x."
  {
    XIsClean();
    XPunctuated();
    FinalizeOfSentence("x.", "x.");
  }

  /** Only the first of two English preambles is stripped. */
  lemma DoublePreambleStripsOne()
    ensures StripPreamble(Trim("possible answer: possible answer: x"), EnglishPreamble) == "possible answer: x"
  {
    DoublePreambleTrimmed();
    assert EnglishPreamble + "" + ":" + " " + "possible answer: x" == "possible answer: possible answer: x";
    DoublePreambleStripInstance();
  }

  /** The doubled-preamble reply has nothing to trim. */
  lemma DoublePreambleTrimmed()
    ensures Trim("possible answer: possible answer: x") == "possible answer: possible answer: x"
  {
    TrimOfTrimmed("possible answer: possible answer: x");
  }

  /** The preamble pattern on the English preamble, ": " and the rest leaves the rest. */
  lemma DoublePreambleStripInstance()
    ensures StripPreamble(EnglishPreamble + "" + ":" + " " + "possible answer: x", EnglishPreamble) == "possible answer: x"
  {
    assert MatchAtCI(EnglishPreamble, 0, EnglishPreamble);
    StripPreambleOf(EnglishPreamble, EnglishPreamble, "", " ", "possible answer: x");
  }

  /** Proof helper: "Possible answer is Paris" spelled as the capitalised word, a space and the rest. */
  lemma NoColonReplySpelled()
    ensures "Possible answer" + (" " + "is Paris") == "Possible answer is Paris"
    ensures MatchAtCI("Possible answer", 0, EnglishPreamble)
  {
    assert Fold('P') == Fold('p');
  }

  /** After the word, the first character that is not blank is 'i', not a colon. */
  lemma NoColonAfterWord()
    ensures TrimStart(" " + "is Paris") == "is Paris"
  {
    TrimStartAfterBlank(" ", "is Paris");
  }

  /** "Possible answer is Paris" starts with the word but has no colon after it, so it is kept whole. */
  lemma PreambleWithoutColonKept()
    ensures StripPreamble("Possible answer is Paris", EnglishPreamble) == "Possible answer is Paris"
  {
    NoColonReplySpelled();
    PreambleWordMatches(EnglishPreamble, "Possible answer", " " + "is Paris");
    NoColonAfterWord();
  }

  /** The two cleaning steps after the preambles leave a text without quotes unchanged. */
  lemma CleanAfterPreambles(s: string, v: string)
    requires StripPreamble(Trim(s), EnglishPreamble) == v && !MatchAtCI(v, 0, FrenchPreamble)
    requires v != [] && v[0] != '"' && v[|v| - 1] != '"'
    requires forall k :: 0 <= k < |v| ==> v[k] != '\U{201C}' && v[k] != '\U{201D}'
    ensures Clean(s) == v
  {
    assert StripQuotes(v) == v;
    assert StraightenQuotes(v) == v;
  }

  /** What is left after the first preamble starts with no French preamble and has no quote. */
  lemma DoublePreambleTailIsPlain()
    ensures var v := "possible answer: x";
      !MatchAtCI(v, 0, FrenchPreamble) && v != [] && v[0] != '"' && v[|v| - 1] != '"'
      && forall k :: 0 <= k < |v| ==> v[k] != '\U{201C}' && v[k] != '\U{201D}'
  {
    var v := "possible answer: x";
    assert Fold(v[0]) != Fold(FrenchPreamble[0]);
  }

  /** The doubled-preamble reply cleans to "possible answer: x". */
  lemma DoublePreambleCleaned()
    ensures Clean("possible answer: possible answer: x") == "possible answer: x"
  {
    DoublePreambleStripsOne();
    DoublePreambleTailIsPlain();
    CleanAfterPreambles("possible answer: possible answer: x", "possible answer: x");
  }

  /** "possible answer: x" is one trimmed sentence, and a period is appended. */
  lemma SinglePreamblePunctuated()
    ensures IsTrimmed("possible answer: x") && SingleSentence("possible answer: x")
    ensures Punctuate("possible answer: x") == "possible answer: x."
  {
    SentenceWithoutInnerStop("possible answer: x");
  }

  /** The first pass leaves "possible answer: x", then appends a period. */
  lemma FinalizeDoublePreamble()
    ensures Finalize("possible answer: possible answer: x") == "possible answer: x."
  {
    DoublePreambleCleaned();
    SinglePreamblePunctuated();
    FinalizeOfSentence("possible answer: possible answer: x", "possible answer: x");
  }

  /** A second `finalize` pass over a doubled preamble strips the second one. */
  lemma DoublePreambleNotIdempotent()
    ensures Finalize(Finalize("possible answer: possible answer: x")) != Finalize("possible answer: possible answer: x")
  {
    FinalizeDoublePreamble();
    FinalizeSinglePreamble();
  }

  /** No `<final>` opens inside "<think>ignore</think>" or across its end. */
  lemma ThinkingHasNoOpener()
    ensures forall k :: 0 <= k < |"<think>ignore</think>"| ==> !MatchAtCI("<think>ignore</think>" + FinalOpen, k, FinalOpen)
  {
    var pre := "<think>ignore</think>";
    var t := pre + FinalOpen;
    forall k | 0 <= k < |pre| ensures !MatchAtCI(t, k, FinalOpen) {
      FoldOfSymbol(t[k + 0], '<');
      FoldOfSymbol(t[k + 1], '/');
      assert t[k + 0] != '<' || t[k + 1] == 't' || t[k + 1] == '/';
      assert Fold(t[k + 0]) != Fold(FinalOpen[0]) || Fold(t[k + 1]) != Fold(FinalOpen[1]);
    }
  }

  /** No `</final>` closes inside "Paris". */
  lemma ParisHasNoCloser()
    ensures forall k :: 0 <= k < |"Paris"| ==> !MatchAtCI("Paris" + FinalClose, k, FinalClose)
  {
    var u := "Paris" + FinalClose;
    forall k | 0 <= k < 5 ensures !MatchAtCI(u, k, FinalClose) {
      FoldOfSymbol(u[k + 0], '<');
      assert Fold(u[k + 0]) != Fold(FinalClose[0]);
    }
  }

  /** `extractGeneral("<think>ignore</think><final>Paris</final>")` is "Paris". */
  lemma FinalAfterThinking()
    ensures ExtractGeneral("<think>ignore</think><final>Paris</final>") == "Paris"
  {
    FinalAfterThinkingSpelled();
    FinalAfterThinkingWins();
  }

  /** Proof helper: the reply is the thinking block, the opening tag, "Paris" and the closing tag. */
  lemma FinalAfterThinkingSpelled()
    ensures "<think>ignore</think>" + FinalOpen + "Paris" + FinalClose + "" == "<think>ignore</think><final>Paris</final>"
  {
  }

  /** The general rule applied to the thinking block, the answer "Paris" and nothing after. */
  lemma FinalAfterThinkingWins()
    ensures ExtractGeneral("<think>ignore</think>" + FinalOpen + "Paris" + FinalClose + "") == "Paris"
  {
    TrimOfTrimmed("Paris");
    ThinkingHasNoOpener();
    ParisHasNoCloser();
    FinalTagWins("<think>ignore</think>", "Paris", "");
  }

  // ---------------------------------------------------------------------
  // extractGeneral: `<think` also opens a `<thinking>` block
  // ---------------------------------------------------------------------

  const ThinkingReply := "<thinking>secret</think>Paris"

  /** Proof helper: the reply spelled as the `<think` opener, the rest of the tag and the secret, the closer, and "Paris". */
  lemma ThinkingReplySpelled()
    ensures ThinkOpen + "ing>secret" + ThinkClose + "Paris" == ThinkingReply
  {
  }

  /** No `</think>` closes before the real one. */
  lemma ThinkingMidHasNoCloser()
    ensures forall k :: |ThinkOpen| <= k < |ThinkOpen| + |"ing>secret"| ==>
      !MatchAtCI(ThinkOpen + "ing>secret" + ThinkClose + "Paris", k, ThinkClose)
  {
    var t := ThinkOpen + "ing>secret" + ThinkClose + "Paris";
    forall k | |ThinkOpen| <= k < |ThinkOpen| + |"ing>secret"| ensures !MatchAtCI(t, k, ThinkClose) {
      FoldOfSymbol(t[k + 0], '<');
      assert Fold(t[k + 0]) != Fold(ThinkClose[0]);
    }
  }

  /** "Paris" has no tag of any kind, so none of the block passes changes it. */
  lemma ParisHasNoBlocks()
    ensures StripBlocks("Paris", ThinkOpen, ThinkClose) == "Paris"
    ensures StripBlocks("Paris", AnalysisOpen, AnalysisClose) == "Paris"
    ensures StripBlocks("Paris", ReflectionOpen, ReflectionClose) == "Paris"
  {
    NoTagMatchWithoutLt("Paris", ThinkOpen);
    StripBlocksUnmatched("Paris", ThinkOpen, ThinkClose);
    NoTagMatchWithoutLt("Paris", AnalysisOpen);
    StripBlocksUnmatched("Paris", AnalysisOpen, AnalysisClose);
    NoTagMatchWithoutLt("Paris", ReflectionOpen);
    StripBlocksUnmatched("Paris", ReflectionOpen, ReflectionClose);
  }

  /** Nor does the markup pass or the trim. */
  lemma ParisHasNoTags()
    ensures StripTags("Paris") == "Paris"
  {
    StripTagsWithoutTag("Paris");
  }

  /** "Paris" has nothing to trim. */
  lemma ParisIsTrimmed()
    ensures Trim("Paris") == "Paris"
  {
    TrimOfTrimmed("Paris");
  }

  /** The thinking pass removes everything up to and including `</think>`. */
  lemma ThinkingBlockRemoved()
    ensures StripBlocks(ThinkingReply, ThinkOpen, ThinkClose) == "Paris"
  {
    ThinkingReplySpelled();
    ThinkingMidHasNoCloser();
    LeadingBlockRemoved(ThinkOpen, "ing>secret", ThinkClose, "Paris");
    ParisHasNoBlocks();
  }

  /** The reply has no `<final>` tag. */
  lemma ThinkingReplyHasNoFinal()
    ensures FinalAnswer(ThinkingReply).None?
  {
    var t := ThinkingReply;
    forall k: nat | k + |FinalOpen| <= |t| ensures !MatchAtCI(t, k, FinalOpen) {
      FoldOfSymbol(t[k + 0], '<');
      assert t[k + 0] != '<' || t[k + 1] == 't' || t[k + 1] == '/';
      assert Fold(t[k + 0]) != Fold(FinalOpen[0]) || Fold(t[k + 1]) != Fold(FinalOpen[1]);
    }
    NoFinalWithoutOpener(t);
  }

  /** `extractGeneral("<thinking>secret</think>Paris")` is "Paris": the opener pattern has no closing '>'. */
  lemma ThinkingBlockStripped()
    ensures ExtractGeneral(ThinkingReply) == "Paris"
  {
    ThinkingReplyHasNoFinal();
    StrippedReplyIs(ThinkingReply);
    ThinkingBlockRemoved();
    ParisHasNoBlocks();
    ParisHasNoTags();
    ParisIsTrimmed();
  }

  // ---------------------------------------------------------------------
  // extractGeneral: an analysis block before plain text
  // ---------------------------------------------------------------------

  const AnalysisReply := "<analysis>x</analysis>plain text"

  /** The reply has no `<final>` and no `<think` tag: both need a '<' followed by something else. */
  lemma AnalysisReplyHasNoFinalOrThink()
    ensures FinalAnswer(AnalysisReply).None?
    ensures StripBlocks(AnalysisReply, ThinkOpen, ThinkClose) == AnalysisReply
  {
    var t := AnalysisReply;
    forall k: nat | k + 2 <= |t| ensures t[k] == '<' ==> t[k + 1] == 'a' || t[k + 1] == '/' {
    }
    forall k: nat | k + |FinalOpen| <= |t| ensures !MatchAtCI(t, k, FinalOpen) {
      FoldOfSymbol(t[k + 0], '<');
      assert Fold(t[k + 0]) != Fold(FinalOpen[0]) || Fold(t[k + 1]) != Fold(FinalOpen[1]);
    }
    NoFinalWithoutOpener(t);
    forall k: nat | k + |ThinkOpen| <= |t| ensures !MatchAtCI(t, k, ThinkOpen) {
      FoldOfSymbol(t[k + 0], '<');
      assert Fold(t[k + 0]) != Fold(ThinkOpen[0]) || Fold(t[k + 1]) != Fold(ThinkOpen[1]);
    }
    StripBlocksUnmatched(t, ThinkOpen, ThinkClose);
  }

  /** Proof helper: the reply spelled as the analysis opener, the rest of its block, the closer, and the text. */
  lemma AnalysisReplySpelled()
    ensures AnalysisOpen + ">x" + AnalysisClose + "plain text" == AnalysisReply
  {
  }

  /** The analysis block goes, and the plain text is left. */
  lemma AnalysisBlockRemoved()
    ensures StripBlocks(AnalysisReply, AnalysisOpen, AnalysisClose) == "plain text"
  {
    var t := AnalysisOpen + ">x" + AnalysisClose + "plain text";
    AnalysisReplySpelled();
    forall k | |AnalysisOpen| <= k < |AnalysisOpen| + 2 ensures !MatchAtCI(t, k, AnalysisClose) {
      FoldOfSymbol(t[k + 0], '<');
      assert Fold(t[k + 0]) != Fold(AnalysisClose[0]);
    }
    LeadingBlockRemoved(AnalysisOpen, ">x", AnalysisClose, "plain text");
    NoTagMatchWithoutLt("plain text", AnalysisOpen);
    StripBlocksUnmatched("plain text", AnalysisOpen, AnalysisClose);
  }

  /** "plain text" has no reflection block. */
  lemma PlainTextHasNoBlock()
    ensures StripBlocks("plain text", ReflectionOpen, ReflectionClose) == "plain text"
  {
    NoTagMatchWithoutLt("plain text", ReflectionOpen);
    StripBlocksUnmatched("plain text", ReflectionOpen, ReflectionClose);
  }

  /** "plain text" has no markup and nothing to trim. */
  lemma PlainTextHasNoTags()
    ensures StripTags("plain text") == "plain text"
  {
    StripTagsWithoutTag("plain text");
  }

  /** "plain text" has nothing to trim. */
  lemma PlainTextIsTrimmed()
    ensures Trim("plain text") == "plain text"
  {
    TrimOfTrimmed("plain text");
  }

  /** `extractGeneral("<analysis>x</analysis>plain text")` is "plain text". */
  lemma AnalysisBlockStripped()
    ensures ExtractGeneral(AnalysisReply) == "plain text"
  {
    AnalysisReplyHasNoFinalOrThink();
    StrippedReplyIs(AnalysisReply);
    AnalysisBlockRemoved();
    PlainTextHasNoBlock();
    PlainTextHasNoTags();
    PlainTextIsTrimmed();
  }

  // ---------------------------------------------------------------------
  // extractGeneral: a thinking block between two words
  // ---------------------------------------------------------------------

  const MiddleReply := "Hello <think>x</think> world"

  /** Proof helper: the reply spelled as "Hello " followed by the block and the rest. */
  lemma MiddleReplySpelled()
    ensures "Hello " + (ThinkOpen + ">x" + ThinkClose + " world") == MiddleReply
    ensures "Hello " + " world" == "Hello  world"
  {
  }

  /** " world" has no tag of any kind, so none of the block passes changes it. */
  lemma WorldHasNoBlocks()
    ensures StripThinking(" world") == " world"
  {
    NoTagMatchWithoutLt(" world", ThinkOpen);
    StripBlocksUnmatched(" world", ThinkOpen, ThinkClose);
    NoTagMatchWithoutLt(" world", AnalysisOpen);
    StripBlocksUnmatched(" world", AnalysisOpen, AnalysisClose);
    NoTagMatchWithoutLt(" world", ReflectionOpen);
    StripBlocksUnmatched(" world", ReflectionOpen, ReflectionClose);
  }

  /** The block goes, and the text after it is left. */
  lemma MiddleBlockRemoved()
    ensures StripThinking(ThinkOpen + ">x" + ThinkClose + " world") == " world"
  {
    var t := ThinkOpen + ">x" + ThinkClose + " world";
    forall k | |ThinkOpen| <= k < |ThinkOpen| + 2 ensures !MatchAtCI(t, k, ThinkClose) {
      FoldOfSymbol(t[k + 0], '<');
      assert Fold(t[k + 0]) != Fold(ThinkClose[0]);
    }
    LeadingBlockRemoved(ThinkOpen, ">x", ThinkClose, " world");
    WorldHasNoBlocks();
  }

  /** The three passes keep "Hello " and remove the block after it. */
  lemma MiddleReplyStripped()
    ensures StripThinking(MiddleReply) == "Hello  world"
  {
    MiddleReplySpelled();
    StripThinkingKeepsPlain("Hello ", ThinkOpen + ">x" + ThinkClose + " world");
    MiddleBlockRemoved();
  }

  /** The reply has no `<final>` tag. */
  lemma MiddleReplyHasNoFinal()
    ensures FinalAnswer(MiddleReply).None?
  {
    var t := MiddleReply;
    forall k: nat | k + |FinalOpen| <= |t| ensures !MatchAtCI(t, k, FinalOpen) {
      FoldOfSymbol(t[k + 0], '<');
      assert t[k + 0] != '<' || t[k + 1] == 't' || t[k + 1] == '/';
      assert Fold(t[k + 0]) != Fold(FinalOpen[0]) || Fold(t[k + 1]) != Fold(FinalOpen[1]);
    }
    NoFinalWithoutOpener(t);
  }

  /** `extractGeneral("Hello <think>x</think> world")` keeps the text on both sides of the block. */
  lemma MiddleBlockStripped()
    ensures ExtractGeneral(MiddleReply) == "Hello  world"
  {
    MiddleReplyHasNoFinal();
    StrippedReplyIs(MiddleReply);
    MiddleReplyStripped();
    HelloWorldHasNoTags();
    HelloWorldIsTrimmed();
  }

  /** "Hello  world" has no markup. */
  lemma HelloWorldHasNoTags()
    ensures StripTags("Hello  world") == "Hello  world"
  {
    StripTagsWithoutTag("Hello  world");
  }

  /** "Hello  world" has nothing to trim. */
  lemma HelloWorldIsTrimmed()
    ensures Trim("Hello  world") == "Hello  world"
  {
    TrimOfTrimmed("Hello  world");
  }

  // ---------------------------------------------------------------------
  // extractGeneral: an opening tag that is never closed
  // ---------------------------------------------------------------------

  const UnclosedReply := "a <think b"

  /** A closing-tag pattern cannot occur in text without '/'. */
  lemma NoCloserWithoutSlash(s: string, pat: string)
    requires |pat| >= 2 && pat[1] == '/' && '/' !in s
    ensures forall k: nat :: !MatchAtCI(s, k, pat)
  {
    forall k: nat | k + |pat| <= |s| ensures !MatchAtCI(s, k, pat) {
      FoldOfSymbol(s[k + 1], '/');
      assert Fold(s[k + 1]) != Fold(pat[1]);
    }
  }

  /** The reply has no closing tag: it holds no '/'. */
  lemma UnclosedReplyHasNoCloser()
    ensures forall k: nat :: !MatchAtCI(UnclosedReply, k, ThinkClose)
    ensures forall k: nat :: !MatchAtCI(UnclosedReply, k, AnalysisClose)
    ensures forall k: nat :: !MatchAtCI(UnclosedReply, k, ReflectionClose)
  {
    assert '/' !in UnclosedReply;
    NoCloserWithoutSlash(UnclosedReply, ThinkClose);
    NoCloserWithoutSlash(UnclosedReply, AnalysisClose);
    NoCloserWithoutSlash(UnclosedReply, ReflectionClose);
  }

  /** The reply has no `<final>` tag: its only '<' is followed by 't'. */
  lemma UnclosedReplyHasNoFinal()
    ensures FinalAnswer(UnclosedReply).None?
  {
    var t := UnclosedReply;
    forall k: nat | k + |FinalOpen| <= |t| ensures !MatchAtCI(t, k, FinalOpen) {
      FoldOfSymbol(t[k + 0], '<');
      assert t[k + 0] != '<' || t[k + 1] == 't';
      assert Fold(t[k + 0]) != Fold(FinalOpen[0]) || Fold(t[k + 1]) != Fold(FinalOpen[1]);
    }
    NoFinalWithoutOpener(t);
  }

  /** "think b" has no '<', so the markup pass keeps it. */
  lemma UnclosedTailHasNoTags()
    ensures StripTags("think b") == "think b"
  {
    StripTagsWithoutTag("think b");
  }

  /** "<think b" has no '>' after its '<', so the markup pass keeps it. */
  lemma UnclosedTagKept()
    ensures StripTags("<" + "think b") == "<" + "think b"
  {
    UnclosedReplySpelled();
    StripTagsKeepsLoneLt("think b");
    UnclosedTailHasNoTags();
  }

  /** "a <think b" keeps its lone '<' through the markup pass. */
  lemma UnclosedReplyHasNoTags()
    ensures StripTags(UnclosedReply) == UnclosedReply
  {
    UnclosedReplySpelled();
    StripTagsKeepsPlain("a ", "<" + "think b");
    UnclosedTagKept();
  }

  /** "a <think b" has nothing to trim. */
  lemma UnclosedReplyIsTrimmed()
    ensures Trim(UnclosedReply) == UnclosedReply
  {
    TrimOfTrimmed(UnclosedReply);
  }

  /** Proof helper: the reply spelled as the text before '<', the '<', and the rest. */
  lemma UnclosedReplySpelled()
    ensures "a " + ("<" + "think b") == UnclosedReply
    ensures '>' !in "think b"[1..]
  {
  }

  /** `extractGeneral("a <think b")` keeps the opening tag, which no closing tag follows. */
  lemma UnclosedBlockKept()
    ensures ExtractGeneral(UnclosedReply) == UnclosedReply
  {
    UnclosedReplyHasNoCloser();
    UnclosedReplyHasNoFinal();
    StrippedReplyIs(UnclosedReply);
    StripThinkingWithoutClosers(UnclosedReply);
    UnclosedReplyHasNoTags();
    UnclosedReplyIsTrimmed();
  }
}
