/** The chat-settings schema: the `font_size` bound and the defaults of every flag. */
module Chat {
  import opened Wrappers
  import Uuids

  /** Why a font size is refused: the field's `ge=13` / `le=16` constraints, which pydantic
      checks first, and the `validate_font_size` validator that runs after them. */
  datatype FontSizeError = TooSmall | TooLarge | OutOfRange

  function Message(e: FontSizeError): string {
    match e
    case TooSmall => "Input should be greater than or equal to 13"
    case TooLarge => "Input should be less than or equal to 16"
    case OutOfRange => "font_size must be between 13 and 16"
  }

  const MinFontSize: int := 13
  const MaxFontSize: int := 16

  /** `validate_font_size`: the after-validator on its own. */
  function ValidateFontSizeAfter(v: int): (r: Result<int, FontSizeError>)
    ensures r.Ok? <==> MinFontSize <= v <= MaxFontSize
    ensures r.Ok? ==> r.value == v
  {
    if v < 13 || v > 16 then Err(OutOfRange) else Ok(v)
  }

  /** Validating `font_size`: the field constraints, then the validator. */
  function ValidateFontSize(v: int): (r: Result<int, FontSizeError>)
    ensures r.Ok? <==> MinFontSize <= v <= MaxFontSize
    ensures r.Ok? ==> r.value == v
    ensures v < MinFontSize ==> r == Err(TooSmall)
    ensures v > MaxFontSize ==> r == Err(TooLarge)
  {
    if v < MinFontSize then Err(TooSmall)
    else if v > MaxFontSize then Err(TooLarge)
    else ValidateFontSizeAfter(v)
  }

  /** The validator's own error is never reached: the field constraints refuse the same values
      first. */
  lemma ValidatorErrorUnreachable(v: int)
    ensures ValidateFontSize(v) != Err(OutOfRange)
    ensures ValidateFontSize(v).Ok? <==> ValidateFontSizeAfter(v).Ok?
  {
  }

  /** An accepted size validates again to itself. */
  lemma ValidateFontSizeIdempotent(v: int)
    requires ValidateFontSize(v).Ok?
    ensures ValidateFontSize(ValidateFontSize(v).value) == ValidateFontSize(v)
  {
  }

  /** `ChatSettingsBaseSchema`: the character and its settings. */
  datatype ChatSettings = ChatSettings(
    characterId: Uuids.Uuid,
    chatEnabled: bool,
    clanChatIsBlue: bool,
    systemItalic: bool,
    fontSize: int,
    filterOnlyMeAndMy: bool,
    filterSystemMessages: bool,
    filterTradeMessages: bool,
    filterLocationMessages: bool,
    showJournal: bool,
    showBell: bool,
    showTranslit: bool,
    showLastic: bool,
    showClearScreen: bool,
    showTradeMessagesButton: bool,
    soundGeneralChat: bool,
    soundPrivateMessage: bool,
    soundClanBattle: bool,
    soundBattleStart: bool,
    soundTimeout: bool)

  /** The boolean fields with their schema names, in declaration order. */
  function Flags(s: ChatSettings): (fs: seq<(string, bool)>)
    ensures |fs| == 18
  {
    [("chat_enabled", s.chatEnabled), ("clan_chat_is_blue", s.clanChatIsBlue),
     ("system_italic", s.systemItalic), ("filter_only_me_and_my", s.filterOnlyMeAndMy),
     ("filter_system_messages", s.filterSystemMessages), ("filter_trade_messages", s.filterTradeMessages),
     ("filter_location_messages", s.filterLocationMessages), ("show_journal", s.showJournal),
     ("show_bell", s.showBell), ("show_translit", s.showTranslit), ("show_lastic", s.showLastic),
     ("show_clear_screen", s.showClearScreen), ("show_trade_messages_button", s.showTradeMessagesButton),
     ("sound_general_chat", s.soundGeneralChat), ("sound_private_message", s.soundPrivateMessage),
     ("sound_clan_battle", s.soundClanBattle), ("sound_battle_start", s.soundBattleStart),
     ("sound_timeout", s.soundTimeout)]
  }

  /** The flags that are on unless the caller says otherwise. */
  const OnByDefault: set<string> := {"chat_enabled", "filter_system_messages", "show_journal", "show_bell", "show_lastic"}

  /** `ChatSettingsBaseSchema(character_id=id)`: every field at its default. */
  function Defaults(characterId: Uuids.Uuid): (s: ChatSettings)
    ensures s.characterId == characterId
  {
    ChatSettings(characterId, true, false, false, 13, false, true, false, false,
                 true, true, false, true, false, false, false, false, false, false, false)
  }

  /** In the defaults, a flag is on exactly when it is one of the five above; the default font
      size is the smallest accepted one. */
  lemma DefaultsShape(characterId: Uuids.Uuid)
    ensures forall i | 0 <= i < 18 :: Flags(Defaults(characterId))[i].1 <==> Flags(Defaults(characterId))[i].0 in OnByDefault
    ensures Defaults(characterId).fontSize == MinFontSize
    ensures ValidateFontSize(Defaults(characterId).fontSize) == Ok(MinFontSize)
  {
    var fs := Flags(Defaults(characterId));
    assert fs[1].0 != "chat_enabled" && fs[1].0 != "filter_system_messages" && fs[1].0 != "show_journal";
    forall i | 0 <= i < 18
      ensures fs[i].1 <==> fs[i].0 in OnByDefault
    {
      if i in {0, 4, 7, 8, 10} {
        assert fs[i].1;
      } else {
        assert !fs[i].1;
        assert fs[i].0[..2] != "ch" || |fs[i].0| != |"chat_enabled"|;
      }
    }
  }
}
