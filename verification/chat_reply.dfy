/**
  How `generateResponse` in src/services/aiService.ts chooses the kind of
  reply to a chat message. The canned sentences themselves, and which one
  is drawn at random, are not modelled; the kind of reply is.
 */
module ChatReply {

  import opened Basics
  import opened Text

  /** The kind of reply, in the order the rules are tried. */
  datatype Reply = GameInvite | Greeting | Question | Emotional | PersonaDefault

  const GreetingWords: seq<string> :=
    ["hello", "hi", "hey", "good morning", "good afternoon", "good evening", "howdy", "greetings"]

  const EmotionalWords: seq<string> :=
    ["feel", "feeling", "sad", "happy", "excited", "worried", "anxious",
     "love", "hate", "angry", "frustrated", "disappointed", "proud",
     "grateful", "thankful", "scared", "nervous", "confident", "hopeful"]

  const Personas: seq<string> :=
    ["AI Assistant", "Luna AI", "Nova Bot", "Sage AI", "Echo Bot", "Pixel AI", "Zen Bot", "Spark AI"]

  predicate MentionsGame(text: string) {
    Contains(text, "game") || Contains(text, "tic tac toe") || Contains(text, "🎮")
  }

  /** `isGreeting`: some greeting word occurs anywhere, even inside another word. */
  predicate IsGreeting(text: string) {
    ContainsAny(text, GreetingWords)
  }

  predicate ContainsEmotionalWords(text: string) {
    ContainsAny(text, EmotionalWords)
  }

  /**
    The names every plain object inherits from `Object.prototype`. Looking
    one of them up in the persona table gives a truthy value that is not a
    persona, so the `||` fallback to "AI Assistant" does not apply.
   */
  const InheritedKeys: seq<string> :=
    ["constructor", "__proto__", "hasOwnProperty", "isPrototypeOf", "propertyIsEnumerable",
     "toLocaleString", "toString", "valueOf", "__defineGetter__", "__defineSetter__",
     "__lookupGetter__", "__lookupSetter__"]

  /** What the persona lookup yields: a persona's reply tables, or an inherited member without them. */
  datatype Persona = Tables(name: string) | Inherited(key: string)

  /**
    The persona lookup: a known name keeps its tables, an inherited name
    yields a member that has none, and any other name falls back to
    "AI Assistant".
   */
  function ResolvePersona(name: string): (r: Persona)
    ensures r.Tables? ==> r.name in Personas
    ensures name in Personas ==> r == Tables(name)
    ensures r.Inherited? <==> name !in Personas && name in InheritedKeys
    ensures name !in Personas && name !in InheritedKeys ==> r == Tables("AI Assistant")
  {
    if name in Personas then Tables(name)
    else if name in InheritedKeys then Inherited(name)
    else Tables("AI Assistant")
  }

  /** The game-invitation rule fires: a game mention and the draw to accept it. */
  predicate AcceptsInvite(text: string, acceptsGame: bool) {
    acceptsGame && MentionsGame(text)
  }

  /** The greeting rule fires: a greeting word within the first two messages. */
  predicate EarlyGreeting(text: string, historyLength: nat) {
    IsGreeting(text) && historyLength <= 2
  }

  /**
    The reply kind for `content`, given the number of messages already in the
    conversation and whether the 70% draw to accept a game came up.
    The rules are tried in order on the lower-cased text: an accepted game
    mention, a greeting early in the conversation, a question mark,
    feeling words, and otherwise the persona's own replies. Each kind is
    chosen exactly when its own rule fires and no earlier rule does.
   */
  function Classify(content: string, historyLength: nat, acceptsGame: bool): (r: Reply)
    ensures var t := ToLower(content);
      r == GameInvite <==> AcceptsInvite(t, acceptsGame)
    ensures var t := ToLower(content);
      r == Greeting <==> !AcceptsInvite(t, acceptsGame) && EarlyGreeting(t, historyLength)
    ensures var t := ToLower(content);
      r == Question <==> !AcceptsInvite(t, acceptsGame) && !EarlyGreeting(t, historyLength)
                         && Contains(t, "?")
    ensures var t := ToLower(content);
      r == Emotional <==> !AcceptsInvite(t, acceptsGame) && !EarlyGreeting(t, historyLength)
                          && !Contains(t, "?") && ContainsEmotionalWords(t)
    ensures var t := ToLower(content);
      r == PersonaDefault <==> !AcceptsInvite(t, acceptsGame) && !EarlyGreeting(t, historyLength)
                               && !Contains(t, "?") && !ContainsEmotionalWords(t)
  {
    var text := ToLower(content);
    if MentionsGame(text) && acceptsGame then GameInvite
    else if IsGreeting(text) && historyLength <= 2 then Greeting
    else if Contains(text, "?") then Question
    else if ContainsEmotionalWords(text) then Emotional
    else PersonaDefault
  }

  /** The two kinds of reply drawn from the persona's own tables. */
  predicate UsesPersonaTables(r: Reply) {
    r == Greeting || r == PersonaDefault
  }

  /**
    `generateResponse` with a persona name: the reply kind, or `None` where
    the source throws because a reply is drawn from the tables of an
    inherited member that has none.
   */
  function Respond(content: string, historyLength: nat, acceptsGame: bool, persona: string): (r: Option<Reply>)
    ensures r.None? <==> ResolvePersona(persona).Inherited?
                         && UsesPersonaTables(Classify(content, historyLength, acceptsGame))
    ensures r.Some? ==> r.value == Classify(content, historyLength, acceptsGame)
  {
    var kind := Classify(content, historyLength, acceptsGame);
    if ResolvePersona(persona).Inherited? && UsesPersonaTables(kind) then None else Some(kind)
  }

  /** The default persona, which is the one the chat hook uses, always answers. */
  lemma DefaultPersonaAnswers(content: string, historyLength: nat, acceptsGame: bool)
    ensures Respond(content, historyLength, acceptsGame, "AI Assistant")
              == Some(Classify(content, historyLength, acceptsGame))
  {
    assert "AI Assistant" == Personas[0];
  }

  /** A greeting to the persona named "toString" fails instead of falling back to the default. */
  lemma InheritedPersonaFails()
    ensures Respond("hi", 0, false, "toString").None?
  {
    assert "toString" == InheritedKeys[6];
    assert "toString" !in Personas by {
      forall k | 0 <= k < |Personas| ensures Personas[k] != "toString" {
        assert |Personas[k]| != 8 || Personas[k][0] != 't';
      }
    }
    var t := ToLower("hi");
    assert t == "hi";
    assert OccursAt(t, "hi", 0);
    assert GreetingWords[1] == "hi";
    assert EarlyGreeting(t, 0);
  }

  /** The message type of the reply: only an accepted game is an invitation. */
  function ReplyType(r: Reply): (t: string)
    ensures t == "game-invite" <==> r == GameInvite
    ensures t != "game-invite" ==> t == "text"
  {
    if r == GameInvite then "game-invite" else "text"
  }

  /** After the first two messages of a conversation a greeting is never answered as one. */
  lemma NoGreetingLateInConversation(content: string, historyLength: nat, acceptsGame: bool)
    requires historyLength > 2
    ensures Classify(content, historyLength, acceptsGame) != Greeting
  {
  }

  /** A declined game draw classifies the message as if it had no game mention. */
  lemma DeclinedGameFallsThrough(content: string, historyLength: nat)
    ensures Classify(content, historyLength, false) != GameInvite
    ensures !MentionsGame(ToLower(content)) ==>
              Classify(content, historyLength, true) == Classify(content, historyLength, false)
  {
  }

  /** A question mark outranks feeling words, and a greeting outranks both early on. */
  lemma QuestionBeforeFeelings(content: string, historyLength: nat, acceptsGame: bool)
    requires !(acceptsGame && MentionsGame(ToLower(content)))
    requires Contains(ToLower(content), "?")
    ensures Classify(content, historyLength, acceptsGame) ==
              (if IsGreeting(ToLower(content)) && historyLength <= 2 then Greeting else Question)
  {
  }

  /** "hi" inside "this" counts as a greeting: the words are matched as substrings. */
  lemma SubstringGreeting()
    ensures Classify("this", 0, true) == Greeting
  {
    var t := ToLower("this");
    assert t == "this";
    assert OccursAt(t, "hi", 1);
    assert Contains(t, "hi");
    assert GreetingWords[1] == "hi";
    ContainedCharsOccur(t, "game");
    assert "game"[0] !in t;
    ContainedCharsOccur(t, "tic tac toe");
    assert "tic tac toe"[3] !in t;
    ContainedCharsOccur(t, "🎮");
    assert "🎮"[0] !in t;
    assert !MentionsGame(t);
    assert IsGreeting(t);
  }

  /** "H" followed by the dotted capital I lower-cases to "hi" and a combining dot, so it is greeted like "hi". */
  lemma DottedCapitalIGreets()
    ensures Classify("H\U{130}", 0, false) == Greeting
  {
    var t := ToLower("H\U{130}");
    assert t == ['h', 'i', '\U{307}'] by {
      assert "H\U{130}"[1..] == [DottedCapitalI];
      assert [DottedCapitalI][1..] == [];
    }
    assert OccursAt(t, "hi", 0);
    assert GreetingWords[1] == "hi";
    assert IsGreeting(t);
  }
}
