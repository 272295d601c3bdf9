/**
 The registrations the repository ships: the two handlers of `TestControl`
 and the one of `PaintAppControl`, all placed in the one shared registry when
 the two classes are defined, and what dispatch and replay do with them.
 */
module ShippedControls {
  import opened Wrappers
  import opened Matching
  import opened ActionRegistry
  import opened VoiceControl

  /** The decorated handler methods. */
  datatype Handler = TurnOnLight | PlayMusic | MakeRectangle

  const LightPattern := "turn on the light"
  const MusicPattern := "play music"
  const RectanglePattern :=
    "make rectangle of width (?P<width>\\d+) and height (?P<height>\\d+) with top left corner at (?P<position>.+)"

  /**
   Calling a handler with keyword arguments. The two `TestControl` handlers
   take none and `make_rectangle` takes exactly `width`, `height` and
   `position`; any other set of keywords raises `TypeError`.
   */
  function Invoke(h: Handler, args: Args): (r: Outcome)
    ensures r.Returned? <==> (if h == MakeRectangle then args.Keys == {"width", "height", "position"} else args == map[])
  {
    match h
    case TurnOnLight => if args == map[] then Returned("Turning on the light") else Raised("TypeError")
    case PlayMusic => if args == map[] then Returned("Playing music") else Raised("TypeError")
    case MakeRectangle =>
      if args.Keys == {"width", "height", "position"} then
        Returned("Making rectangle of width " + args["width"] + ", height " + args["height"] + " at " + args["position"])
      else Raised("TypeError")
  }

  /** The registry once both control classes are defined, in definition order. */
  function Registrations(): seq<Entry<Handler>>
  {
    [ Entry(LightPattern, Substring, TurnOnLight),
      Entry(MusicPattern, StartsWith, PlayMusic),
      Entry(RectanglePattern, Dynamic, MakeRectangle) ]
  }

  /**
   Module import followed by `PaintAppControl()` in `main`: the three
   decorators run against the shared registry, and the new control aliases it.
   */
  method Startup() returns (registry: Registry<Handler>, paint: Control<Handler>)
    ensures fresh(registry) && fresh(paint)
    ensures registry.Valid() && registry.entries == Registrations()
    ensures paint.registry == registry && paint.history == []
  {
    registry := new Registry();
    registry.Register(LightPattern, Substring, TurnOnLight);
    registry.Register(MusicPattern, StartsWith, PlayMusic);
    registry.Register(RectanglePattern, Dynamic, MakeRectangle);
    paint := new Control(registry);
  }

  lemma RegistrationsValid()
    ensures UniqueKeys(Registrations())
    ensures Keys(Registrations()) == [LightPattern, MusicPattern, RectanglePattern]
  {
  }

  // ---------------------------------------------------------------------------
  // The matcher on concrete commands
  // ---------------------------------------------------------------------------

  /** SUBSTRING is contiguous: extra words after the pattern are fine, reordered words are not. */
  lemma LightSubstringExamples()
    ensures IsMatch("turn on the light please", LightPattern, Substring)
    ensures !IsMatch("turn the light on", LightPattern, Substring)
  {
    var yes := "turn on the light please";
    assert yes[0..|LightPattern|] == LightPattern;
    var no := "turn the light on";
    assert no[0..|LightPattern|] != LightPattern by {
      assert no[5] != LightPattern[5];
    }
  }

  /** The words of the keyword pattern "turn on light". */
  const LightKeywords: seq<string> := ["turn", "on", "light"]

  lemma LightKeywordsAreWords()
    ensures AllWords(LightKeywords)
  {
    assert NoSpace("turn") && NoSpace("on") && NoSpace("light");
  }

  lemma LightKeywordsJoin()
    ensures Join(LightKeywords) == "turn on light"
  {
    assert Join(LightKeywords[2..]) == "light";
    assert Join(LightKeywords[1..]) == "on light";
  }

  lemma TurnOnLightWords()
    ensures Split("turn on light") == ["turn", "on", "light"]
  {
    LightKeywordsAreWords();
    LightKeywordsJoin();
    SplitJoin(LightKeywords);
  }

  /** "please turn the light on now", cut around the words of "turn on light". */
  const PleasePieces := ["please ", "turn", " the ", "light", " ", "on", " now"]

  lemma PleasePiecesText()
    ensures Concat(PleasePieces) == "please turn the light on now"
  {
  }

  lemma PleaseTurnTheLightOnNowWords()
    ensures Contains("please turn the light on now", "turn")
    ensures Contains("please turn the light on now", "on")
    ensures Contains("please turn the light on now", "light")
  {
    ContainsPiece(PleasePieces, 1);
    ContainsPiece(PleasePieces, 3);
    ContainsPiece(PleasePieces, 5);
    PleasePiecesText();
  }

  /** ALL_KEYWORDS ignores order and position of the words. */
  lemma AllKeywordsAnyOrder()
    ensures IsMatch("please turn the light on now", "turn on light", AllKeywords)
  {
    PleaseTurnTheLightOnNowWords();
    TurnOnLightWords();
  }

  /** ALL_KEYWORDS needs every word: "on" is missing. */
  lemma AllKeywordsMissingWord()
    ensures !IsMatch("turn the light", "turn on light", AllKeywords)
  {
    assert 'o' !in "turn the light";
    MissingCharNotContained("turn the light", "on", 0);
    TurnOnLightWords();
    assert "on" in Split("turn on light");
  }

  /** "turn on light" laid out with a tab, a double space, a newline and a trailing blank. */
  const SpacedLightPattern := "\tturn  on\nlight "

  lemma SpacedLightLayout()
    ensures Layout(LightKeywords, ["\t", "  ", "\n", " "]) == SpacedLightPattern
  {
    assert Layout(LightKeywords[3..], ["\t", "  ", "\n", " "][3..]) == " ";
    assert Layout(LightKeywords[2..], ["\t", "  ", "\n", " "][2..]) == "\nlight ";
    assert Layout(LightKeywords[1..], ["\t", "  ", "\n", " "][1..]) == "  on\nlight ";
  }

  lemma SpacedLightWords()
    ensures Split(SpacedLightPattern) == ["turn", "on", "light"]
  {
    var seps := ["\t", "  ", "\n", " "];
    LightKeywordsAreWords();
    assert Blank("\t") && Blank("  ") && Blank("\n") && Blank(" ");
    assert Spacing(LightKeywords, seps);
    SpacedLightLayout();
    SplitLayout(LightKeywords, seps);
  }

  /** Any whitespace between and around the keywords gives the same ALL_KEYWORDS answer. */
  lemma SpacedKeywordsSameMatch(command: string)
    ensures IsMatch(command, SpacedLightPattern, AllKeywords) == IsMatch(command, "turn on light", AllKeywords)
  {
    SpacedLightWords();
    TurnOnLightWords();
  }

  /** "return the lighthouse money", cut around the words of "turn on light". */
  const LighthousePieces := ["re", "turn", " the ", "light", "house m", "on", "ey"]

  lemma LighthousePiecesText()
    ensures Concat(LighthousePieces) == "return the lighthouse money"
  {
  }

  lemma ReturnTheLighthouseMoneyWords()
    ensures Contains("return the lighthouse money", "turn")
    ensures Contains("return the lighthouse money", "on")
    ensures Contains("return the lighthouse money", "light")
  {
    ContainsPiece(LighthousePieces, 1);
    ContainsPiece(LighthousePieces, 3);
    ContainsPiece(LighthousePieces, 5);
    LighthousePiecesText();
  }

  /** ALL_KEYWORDS words are substrings, not whole words of the command. */
  lemma AllKeywordsInsideWords()
    ensures IsMatch("return the lighthouse money", "turn on light", AllKeywords)
  {
    ReturnTheLighthouseMoneyWords();
    TurnOnLightWords();
  }

  // ---------------------------------------------------------------------------
  // Dispatch with the shipped registrations
  // ---------------------------------------------------------------------------

  /**
   Dispatch over the shipped registry, for every command: the light handler
   when the command contains "turn on the light", otherwise the music handler
   when it starts with "play music", otherwise not recognized. The rectangle
   registration never answers.
   */
  lemma {:induction false} ShippedDispatch(command: string)
    ensures Dispatch(Registrations(), command, Invoke)
         == if Contains(command, LightPattern) then Returned("Turning on the light")
            else if StartsWithText(command, MusicPattern) then Returned("Playing music")
            else Returned(NotRecognized)
  {
    var es := Registrations();
    assert Fires(es[0], command) == Contains(command, LightPattern);
    assert Fires(es[1], command) == StartsWithText(command, MusicPattern);
    assert !Fires(es[2], command);
  }

  /** "make rectangle of width 10 and height 20 with top left corner at 0,0", in pieces. */
  const RectangleCommand := "make rectangle of " + "width 10 and height " + "20 with top left " + "corner at 0,0"

  lemma DispatchPlayMusicNow()
    ensures Dispatch(Registrations(), "play music now", Invoke) == Returned("Playing music")
  {
    ShippedDispatch("play music now");
    assert MusicPattern <= "play music now";
  }

  /** STARTS_WITH is anchored: the music pattern later in the command does not count. */
  lemma DispatchPleasePlayMusic()
    ensures Dispatch(Registrations(), "please play music", Invoke) == Returned(NotRecognized)
  {
    PleasePlayMusicMatchesNothing();
    ShippedDispatch("please play music");
  }

  lemma PleasePlayMusicMatchesNothing()
    ensures !Contains("please play music", LightPattern)
    ensures !StartsWithText("please play music", MusicPattern)
  {
    assert 't' !in "please play music";
    MissingCharNotContained("please play music", LightPattern, 0);
    PleasePlayMusicNotMusicPrefix();
  }

  lemma PleasePlayMusicNotMusicPrefix()
    ensures !StartsWithText("please play music", "play music")
  {
    assert "please play music"[3] != "play music"[3];
  }

  lemma DispatchTurnOnLight()
    ensures Dispatch(Registrations(), "turn on the light please", Invoke) == Returned("Turning on the light")
  {
    ShippedDispatch("turn on the light please");
    LightSubstringExamples();
  }

  /** The DYNAMIC rectangle registration never fires, so its own command is not recognized. */
  lemma DispatchRectangle()
    ensures Dispatch(Registrations(), RectangleCommand, Invoke) == Returned(NotRecognized)
  {
    RectangleCommandMatchesNothing();
    ShippedDispatch(RectangleCommand);
  }

  lemma RectangleCommandMatchesNothing()
    ensures !Contains(RectangleCommand, LightPattern)
    ensures !StartsWithText(RectangleCommand, MusicPattern)
  {
    MissingCharNotContained(RectangleCommand, LightPattern, 1);
    assert RectangleCommand[0] != MusicPattern[0];
  }

  /** Precedence: with "turn" registered before "turn on", "turn on the light" goes to the first. */
  lemma PrecedenceExample()
    ensures Dispatch([Entry("turn", Substring, TurnOnLight), Entry("turn on", Substring, PlayMusic)],
                     "turn on the light", Invoke) == Returned("Turning on the light")
  {
    assert "turn" <= "turn on the light";
  }

  /**
   Re-registering a pattern overwrites it where it stands, so it can change an
   answer already decided: "turn on" moves from the light handler to the
   music handler.
   */
  lemma ReregisterChangesAnswer()
    ensures Dispatch([Entry("turn", Substring, TurnOnLight)], "turn on", Invoke) == Returned("Turning on the light")
    ensures Dispatch(Insert([Entry("turn", Substring, TurnOnLight)], Entry("turn", Substring, PlayMusic)), "turn on", Invoke)
         == Returned("Playing music")
  {
    assert "turn" <= "turn on";
    assert Insert([Entry("turn", Substring, TurnOnLight)], Entry("turn", Substring, PlayMusic))
        == [Entry("turn", Substring, PlayMusic)];
  }

  // ---------------------------------------------------------------------------
  // Replay with the shipped registrations
  // ---------------------------------------------------------------------------

  /**
   A saved history naming one shipped action, then an unknown one, then
   another shipped one: the first is replayed, the unknown one raises
   `KeyError`, and the third is never reached.
   */
  lemma ReplayExample(t: Instant)
    ensures Replay(Registrations(),
                   [CommandRecord(MusicPattern, t, map[]), CommandRecord("dance", t, map[]), CommandRecord(LightPattern, t, map[])],
                   Invoke)
         == ReplayRun([Call(PlayMusic, map[])], UnknownAction(1, "dance"))
  {
    var records := [CommandRecord(MusicPattern, t, map[]), CommandRecord("dance", t, map[]), CommandRecord(LightPattern, t, map[])];
    assert Lookup(Registrations(), "dance").None? by {
      assert "dance" != LightPattern && "dance" != MusicPattern && "dance" != RectanglePattern;
    }
    assert Passes(Registrations(), records[0], Invoke);
    assert FirstFailure(Registrations(), records, Invoke, 0) == 1;
  }

  /** The arguments `make_rectangle` was called with for the example command. */
  const RectangleArgs: Args := map["width" := "10", "height" := "20", "position" := "0,0"]

  lemma RectangleArgsKeys()
    ensures RectangleArgs.Keys == {"width", "height", "position"}
  {
  }

  lemma RectangleArgsFit()
    ensures Invoke(MakeRectangle, RectangleArgs) == Returned("Making rectangle of width 10, height 20 at 0,0")
  {
    RectangleArgsKeys();
    assert RectangleArgs["width"] == "10" && RectangleArgs["height"] == "20" && RectangleArgs["position"] == "0,0";
    assert "Making rectangle of width " + "10" + ", height " + "20" + " at " + "0,0"
        == "Making rectangle of width 10, height 20 at 0,0";
  }

  lemma LookupRectangle()
    ensures Lookup(Registrations(), RectanglePattern) == Some(Entry(RectanglePattern, Dynamic, MakeRectangle))
  {
    assert LightPattern != RectanglePattern && MusicPattern != RectanglePattern by {
      assert |LightPattern| != |RectanglePattern| && |MusicPattern| != |RectanglePattern|;
    }
  }

  /**
   A record keyed by the handler's function name, as the history-writing
   dispatch variant records it, is not a registry key: replay stops at once
   with `KeyError` and calls nothing.
   */
  lemma ReplayByFunctionName(t: Instant)
    ensures Replay(Registrations(), [CommandRecord("make_rectangle", t, RectangleArgs)], Invoke)
         == ReplayRun([], UnknownAction(0, "make_rectangle"))
  {
    RegistrationsValid();
    assert "make_rectangle" !in Keys(Registrations()) by {
      assert "make_rectangle"[0] != LightPattern[0] && "make_rectangle"[0] != MusicPattern[0];
      assert |"make_rectangle"| != |RectanglePattern|;
    }
    ReplayAbortsAtUnknown(Registrations(), [CommandRecord("make_rectangle", t, RectangleArgs)], Invoke, 0);
  }

  /** A saved rectangle record keyed by its pattern replays `make_rectangle` with its three captured arguments. */
  lemma ReplayRectangleExample(t: Instant)
    ensures Replay(Registrations(), [CommandRecord(RectanglePattern, t, RectangleArgs)], Invoke)
         == ReplayRun([Call(MakeRectangle, RectangleArgs)], Completed)
  {
    var records := [CommandRecord(RectanglePattern, t, RectangleArgs)];
    LookupRectangle();
    RectangleArgsFit();
    assert Passes(Registrations(), records[0], Invoke);
    ReplayAllRegistered(Registrations(), records, Invoke);
  }
}
