/**
 * Participant identity: the closed set of characters, their vendor model
 * identifiers and labels, the perspective rule that flattens a three-party
 * chat into the two-role user/assistant schema, and the seat label of a player.
 */
module Characters {
  import opened Results

  const UserRole: string := "user"
  const AssistantRole: string := "assistant"
  const SystemRole: string := "system"

  /** The human (User) or one specific AI model. */
  datatype Character = User | Claude3Opus | Gpt4 | Gpt35 | CommandRPlus | CommandR {

    /** The AI characters, in the order the seat selectors list them. */
    static function Bots(): (r: seq<Character>)
      ensures forall c: Character :: c in r <==> c.Npc()
      ensures forall i, j :: 0 <= i < j < |r| ==> r[i] != r[j]
    {
      [Claude3Opus, CommandRPlus, CommandR, Gpt4, Gpt35]
    }

    /** Whether this character is played by a model rather than the human. */
    predicate Npc() {
      this != User
    }

    /**
     * The vendor model identifier. For User the source executes
     * `raise NotImplemented`, which Python 3 rejects with a TypeError
     * because NotImplemented is not an exception.
     */
    function ModelSlug(): (r: Result<string>)
      ensures r.Ok? <==> this in Bots()
      ensures r.Err? ==> r.error == TypeError
    {
      match this
      case Claude3Opus => Ok("claude-3-opus-20240229")
      case Gpt4 => Ok("gpt-4")
      case Gpt35 => Ok("gpt-3.5-turbo")
      case CommandRPlus => Ok("command-r-plus")
      case CommandR => Ok("command-r")
      case User => Err(TypeError)
    }

    /** The human-readable label of an AI character; User has none. */
    function DisplayName(): (r: Result<string>)
      ensures r.Ok? <==> this in Bots()
      ensures r.Err? ==> r.error == NotImplementedError
    {
      match this
      case Claude3Opus => Ok("Claude 3 Opus")
      case Gpt4 => Ok("GPT-4")
      case Gpt35 => Ok("GPT-3.5")
      case CommandRPlus => Ok("Command R+")
      case CommandR => Ok("Command R")
      case User => Err(NotImplementedError)
    }

    /**
     * The role under which `other`'s turns are presented to this character:
     * the XOR of "I am a bot" and "the speaker is me" selects "user".
     */
    function RoleFromOwnPerspective(other: Character): (r: string)
      ensures r == UserRole || r == AssistantRole
      ensures r == AssistantRole <==> (Npc() && other == this) || (this == User && other != User)
    {
      if Npc() != (this == other) then UserRole else AssistantRole
    }
  }

  /** Distinct AI characters have distinct model identifiers and labels. */
  lemma BotMappingsInjective(a: Character, b: Character)
    requires a.Npc() && b.Npc() && a != b
    ensures a.ModelSlug().value != b.ModelSlug().value
    ensures a.DisplayName().value != b.DisplayName().value
  {
  }

  /** Python's `str(n)` for an integer: optional minus sign, then decimal digits. */
  function DigitChar(d: nat): (c: char)
    requires d < 10
    ensures '0' <= c <= '9'
  {
    (('0' as int) + d) as char
  }

  function NatToString(n: nat): (r: string)
    ensures |r| > 0 && '0' <= r[0] <= '9'
    ensures n >= 10 ==> |r| >= 2
  {
    if n < 10 then [DigitChar(n)] else NatToString(n / 10) + [DigitChar(n % 10)]
  }

  /** Every character of `str(n)` is a decimal digit. */
  lemma {:induction false} NatToStringDigits(n: nat)
    ensures forall k :: 0 <= k < |NatToString(n)| ==> '0' <= NatToString(n)[k] <= '9'
    decreases n
  {
    if n >= 10 {
      NatToStringDigits(n / 10);
      var s := NatToString(n);
      assert s == NatToString(n / 10) + [DigitChar(n % 10)];
    }
  }

  function IntToString(i: int): (r: string)
    ensures |r| > 0 && (r[0] == '-' <==> i < 0)
  {
    if i < 0 then "-" + NatToString(-i) else NatToString(i)
  }

  /** `str(i)` holds no space. */
  lemma IntToStringHasNoSpace(i: int)
    ensures forall k :: 0 <= k < |IntToString(i)| ==> IntToString(i)[k] != ' '
  {
    if i < 0 {
      NatToStringDigits(-i);
      assert IntToString(i) == "-" + NatToString(-i);
    } else {
      NatToStringDigits(i);
    }
  }

  /** The value of a decimal digit character. */
  function DigitValue(c: char): int {
    (c as int) - ('0' as int)
  }

  /** Reads a run of decimal digits, most significant first: Python's `int(s)` on digits. */
  function DecimalValue(s: string): int
    decreases |s|
  {
    if s == [] then 0 else DecimalValue(s[..|s| - 1]) * 10 + DigitValue(s[|s| - 1])
  }

  /** Reads an optional minus sign, then decimal digits. */
  function IntValue(s: string): int {
    if |s| > 0 && s[0] == '-' then -DecimalValue(s[1..]) else DecimalValue(s)
  }

  /** `NatToString` writes the decimal expansion: reading it back gives the number. */
  lemma {:induction false} NatToStringRoundTrip(n: nat)
    ensures DecimalValue(NatToString(n)) == n
    decreases n
  {
    var s := NatToString(n);
    if n < 10 {
      assert s[..0] == [];
    } else {
      NatToStringRoundTrip(n / 10);
      assert s[..|s| - 1] == NatToString(n / 10);
      assert DigitValue(s[|s| - 1]) == n % 10;
    }
  }

  /** `str(i)` is the decimal text of `i`: reading it back gives `i`. */
  lemma IntToStringRoundTrip(i: int)
    ensures IntValue(IntToString(i)) == i
  {
    if i < 0 {
      assert IntToString(i)[1..] == NatToString(-i);
      NatToStringRoundTrip(-i);
    } else {
      NatToStringRoundTrip(i);
    }
  }

  /** Different indices print differently, so the seat index is recoverable. */
  lemma IntToStringInjective(a: int, b: int)
    requires IntToString(a) == IntToString(b)
    ensures a == b
  {
    IntToStringRoundTrip(a);
    IntToStringRoundTrip(b);
  }

  /** A seat: a character bound to a display name and a 1-based index. */
  datatype Player = Player(character: Character, name: string, index: int) {

    /** The `Player #i (name)` label. */
    function DisplayName(): string {
      "Player #" + IntToString(index) + " (" + name + ")"
    }
  }

  /** If `a + " (" + x == b + " (" + y` and neither a nor b holds a space, the parts agree. */
  lemma SplitAtFirstSpace(a: string, x: string, b: string, y: string)
    requires a + " (" + x == b + " (" + y
    requires forall k :: 0 <= k < |a| ==> a[k] != ' '
    requires forall k :: 0 <= k < |b| ==> b[k] != ' '
    ensures a == b && x == y
  {
    var s := a + " (" + x;
    assert forall k :: 0 <= k < |a| ==> s[k] == a[k];
    assert forall k :: 0 <= k < |b| ==> s[k] == b[k];
    assert s[|a|] == ' ' && s[|b|] == ' ';
    if |a| == |b| {
      assert a == s[..|a|] == b;
      assert x == s[|a| + 2..] == y;
    }
  }

  /** After the fixed `Player #` come the index, ` (`, the name and `)`. */
  lemma DisplayNameAfterHash(p: Player)
    ensures |p.DisplayName()| >= 8
    ensures p.DisplayName()[8..] == IntToString(p.index) + " (" + (p.name + ")")
  {
    assert p.DisplayName() == "Player #" + (IntToString(p.index) + " (" + (p.name + ")"));
  }

  /**
   * The label determines the seat index and the name (not the character:
   * the label does not mention it).
   */
  lemma DisplayNameInjective(p: Player, q: Player)
    requires p.DisplayName() == q.DisplayName()
    ensures p.index == q.index && p.name == q.name
  {
    var a, b := IntToString(p.index), IntToString(q.index);
    var x, y := p.name + ")", q.name + ")";
    DisplayNameAfterHash(p);
    DisplayNameAfterHash(q);
    IntToStringHasNoSpace(p.index);
    IntToStringHasNoSpace(q.index);
    SplitAtFirstSpace(a, x, b, y);
    IntToStringInjective(p.index, q.index);
    assert p.name == x[..|x| - 1];
    assert q.name == y[..|y| - 1];
  }
}
