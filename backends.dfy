/**
 * The request-message builders of the three vendor backends and the
 * dispatch from a seat's character to its backend kind.
 */
module Backends {
  import opened Results
  import opened Characters
  import opened Messages

  /** One `{"role": ..., "content": ...}` entry of an OpenAI or Anthropic request. */
  datatype Entry = Entry(role: string, content: string)

  const NoNamesInstruction: string :=
    "Do not include a name in your message. Names will be included by the system."
  const SyntheticContent: string :=
    "<ignore>" + "Token inserted by system for multi-player dialogue." + "</ignore>"

  /** The filler turn the Anthropic builder puts between two `user` entries. */
  const Synthetic: Entry := Entry(AssistantRole, SyntheticContent)

  /** The entry for one string-content message, as seen by `me`. */
  function EntryOf(me: Character, m: Message): Entry
    reads m
    requires m.content.Text?
  {
    Entry(me.RoleFromOwnPerspective(m.player.character), m.LlmContent().value)
  }

  /**
   * One entry per message of the longest prefix of `history` whose contents
   * are all strings, in order: the builders stop at the first stream.
   */
  function TextEntries(me: Character, history: seq<Message>): (r: seq<Entry>)
    reads history
    ensures |r| <= |history|
  {
    if history == [] || !history[0].content.Text? then []
    else [EntryOf(me, history[0])] + TextEntries(me, history[1..])
  }

  /** A string-content message reached before any stream has its entry at its own index. */
  lemma {:induction false} TextEntriesAt(me: Character, history: seq<Message>, i: nat)
    requires i <= |TextEntries(me, history)| && i < |history| && history[i].content.Text?
    ensures i < |TextEntries(me, history)| && TextEntries(me, history)[i] == EntryOf(me, history[i])
    decreases i
  {
    if i > 0 {
      assert history[1..][i - 1] == history[i];
      TextEntriesAt(me, history[1..], i - 1);
    }
  }

  /** The per-message entries end exactly at the first message whose content is a stream. */
  lemma {:induction false} TextEntriesEndAtStream(me: Character, history: seq<Message>, i: nat)
    requires i <= |TextEntries(me, history)|
    requires i == |history| || !history[i].content.Text?
    ensures i == |TextEntries(me, history)|
    decreases i
  {
    if i > 0 {
      assert i == |history| || history[1..][i - 1] == history[i];
      TextEntriesEndAtStream(me, history[1..], i - 1);
    }
  }

  /**
   * The per-message entries, characterised: the longest all-string prefix of
   * `history`, one entry per message, in the original order.
   */
  lemma TextEntriesIsStringPrefix(me: Character, history: seq<Message>)
    ensures var r := TextEntries(me, history);
            (forall j :: 0 <= j < |r| ==> history[j].content.Text? && r[j] == EntryOf(me, history[j])) &&
            (|r| < |history| ==> !history[|r|].content.Text?)
  {
    var r := TextEntries(me, history);
    forall j | 0 <= j < |r|
      ensures history[j].content.Text? && r[j] == EntryOf(me, history[j])
    {
      TextEntriesStringAt(me, history, j);
      TextEntriesAt(me, history, j);
    }
    if |r| < |history| && history[|r|].content.Text? {
      TextEntriesAt(me, history, |r|);
    }
  }

  lemma {:induction false} TextEntriesStringAt(me: Character, history: seq<Message>, j: nat)
    requires j < |TextEntries(me, history)|
    ensures history[j].content.Text?
    decreases j
  {
    if j > 0 {
      assert history[1..][j - 1] == history[j];
      TextEntriesStringAt(me, history[1..], j - 1);
    }
  }

  /** Every per-message entry starts with its speaker's label, so none is the filler turn. */
  lemma SyntheticNotInTextEntries(me: Character, history: seq<Message>)
    ensures Synthetic !in TextEntries(me, history)
  {
    var r := TextEntries(me, history);
    forall j | 0 <= j < |r|
      ensures r[j] != Synthetic
    {
      TextEntriesStringAt(me, history, j);
      TextEntriesAt(me, history, j);
      LabelledContentIsNotSynthetic(history[j]);
    }
  }

  lemma LabelledContentIsNotSynthetic(m: Message)
    requires m.content.Text?
    ensures m.LlmContent().value != SyntheticContent
  {
    var p := m.MessagePrefix();
    var c := m.LlmContent().value;
    assert c[0] == p[0] == '*';
    assert SyntheticContent[0] == '<';
  }

  datatype OpenAIBackend = OpenAIBackend(systemPrompt: string, player: Player) {

    /**
     * `OpenAIBackend.get_message_history`: the system prompt and the
     * no-names instruction, then the per-message entries.
     */
    method GetMessageHistory(history: seq<Message>) returns (messages: seq<Entry>)
      ensures messages ==
                [Entry(SystemRole, systemPrompt), Entry(SystemRole, NoNamesInstruction)]
                + TextEntries(player.character, history)
    {
      var header := [Entry(SystemRole, systemPrompt), Entry(SystemRole, NoNamesInstruction)];
      messages := header;
      ghost var entries := TextEntries(player.character, history);
      var i := 0;
      while i < |history|
        invariant 0 <= i <= |history| && i <= |entries|
        invariant messages == header + entries[..i]
      {
        var m := history[i];
        if !m.content.Text? {
          break;
        }
        assert entries[..i + 1] == entries[..i] + [EntryOf(player.character, m)] by {
          TextEntriesAt(player.character, history, i);
        }
        messages := messages + [Entry(player.character.RoleFromOwnPerspective(m.player.character),
                                      m.LlmContent().value)];
        i := i + 1;
      }
      TextEntriesEndAtStream(player.character, history, i);
      assert entries[..i] == entries;
    }
  }

  /** One iteration of the Anthropic loop: a filler turn first when two `user` entries would touch. */
  function AppendTurn(messages: seq<Entry>, msg: Entry): seq<Entry> {
    if |messages| > 0 && messages[|messages| - 1].role == UserRole && msg.role == UserRole
    then messages + [Synthetic, msg]
    else messages + [msg]
  }

  /** The Anthropic request list built from the per-message entries. */
  function WithSynthetic(entries: seq<Entry>): (r: seq<Entry>)
    ensures |entries| <= |r|
    ensures entries != [] ==> r != [] && r[|r| - 1] == entries[|entries| - 1]
    decreases |entries|
  {
    if entries == [] then []
    else AppendTurn(WithSynthetic(entries[..|entries| - 1]), entries[|entries| - 1])
  }

  datatype AnthropicBackend = AnthropicBackend(systemPrompt: string, player: Player) {

    /** `AnthropicBackend.get_message_history`. */
    method GetMessageHistory(history: seq<Message>) returns (messages: seq<Entry>)
      ensures messages == WithSynthetic(TextEntries(player.character, history))
    {
      messages := [];
      ghost var entries := TextEntries(player.character, history);
      var i := 0;
      while i < |history|
        invariant 0 <= i <= |history| && i <= |entries|
        invariant messages == WithSynthetic(entries[..i])
      {
        var m := history[i];
        if !m.content.Text? {
          break;
        }
        var msg := Entry(player.character.RoleFromOwnPerspective(m.player.character),
                         m.LlmContent().value);
        ghost var next := AppendTurn(messages, msg);
        assert WithSynthetic(entries[..i + 1]) == next by {
          assert msg == EntryOf(player.character, m);
          AnthropicStep(player.character, history, i, messages);
        }
        if |messages| > 0 && messages[|messages| - 1].role == UserRole && msg.role == UserRole {
          messages := messages + [Synthetic];
        }
        messages := messages + [msg];
        assert messages == next;
        i := i + 1;
      }
      TextEntriesEndAtStream(player.character, history, i);
      assert entries[..i] == entries;
    }
  }

  /** One iteration of the Anthropic loop extends the request for one more per-message entry. */
  lemma AnthropicStep(me: Character, history: seq<Message>, i: nat, messages: seq<Entry>)
    requires i < |history| && history[i].content.Text? && i <= |TextEntries(me, history)|
    requires messages == WithSynthetic(TextEntries(me, history)[..i])
    ensures i < |TextEntries(me, history)|
    ensures WithSynthetic(TextEntries(me, history)[..i + 1]) == AppendTurn(messages, EntryOf(me, history[i]))
  {
    TextEntriesAt(me, history, i);
    WithSyntheticStep(TextEntries(me, history), i);
  }

  lemma WithSyntheticStep(entries: seq<Entry>, i: nat)
    requires i < |entries|
    ensures WithSynthetic(entries[..i + 1]) == AppendTurn(WithSynthetic(entries[..i]), entries[i])
  {
    assert entries[..i + 1][..i] == entries[..i];
  }

  /** No two adjacent entries are both `user`. */
  ghost predicate NoAdjacentUsers(s: seq<Entry>) {
    forall k :: 0 < k < |s| ==> !(s[k - 1].role == UserRole && s[k].role == UserRole)
  }

  /** The Anthropic list never has two adjacent `user` entries. */
  lemma {:induction false} WithSyntheticNoAdjacentUsers(entries: seq<Entry>)
    ensures NoAdjacentUsers(WithSynthetic(entries))
    decreases |entries|
  {
    if entries != [] {
      var init, e := entries[..|entries| - 1], entries[|entries| - 1];
      WithSyntheticNoAdjacentUsers(init);
      var w, r := WithSynthetic(init), WithSynthetic(entries);
      assert Synthetic.role != UserRole by { assert AssistantRole[0] != UserRole[0]; }
      if |w| > 0 && w[|w| - 1].role == UserRole && e.role == UserRole {
        assert r == w + [Synthetic, e];
        forall k | 0 < k < |r|
          ensures !(r[k - 1].role == UserRole && r[k].role == UserRole)
        {
          if k < |w| {
            assert r[k - 1] == w[k - 1] && r[k] == w[k];
          } else if k == |w| {
            assert r[k] == Synthetic;
          } else {
            assert r[k - 1] == Synthetic;
          }
        }
      } else {
        assert r == w + [e];
        forall k | 0 < k < |r|
          ensures !(r[k - 1].role == UserRole && r[k].role == UserRole)
        {
          if k < |w| {
            assert r[k - 1] == w[k - 1] && r[k] == w[k];
          } else {
            assert r[k - 1] == w[|w| - 1] && r[k] == e;
          }
        }
      }
    }
  }

  /** Drop the filler turns. */
  function WithoutSynthetic(s: seq<Entry>): (r: seq<Entry>)
    ensures Synthetic !in r
    decreases |s|
  {
    if s == [] then []
    else WithoutSynthetic(s[..|s| - 1]) + (if s[|s| - 1] == Synthetic then [] else [s[|s| - 1]])
  }

  lemma WithoutSyntheticSnoc(s: seq<Entry>, e: Entry)
    ensures WithoutSynthetic(s + [e]) == WithoutSynthetic(s) + (if e == Synthetic then [] else [e])
  {
    assert (s + [e])[..|s|] == s;
  }

  /** Dropping the filler turns after one appended turn drops only the filler it may add. */
  lemma WithoutSyntheticAppendTurn(w: seq<Entry>, e: Entry)
    requires e != Synthetic
    ensures WithoutSynthetic(AppendTurn(w, e)) == WithoutSynthetic(w) + [e]
  {
    if |w| > 0 && w[|w| - 1].role == UserRole && e.role == UserRole {
      assert AppendTurn(w, e) == (w + [Synthetic]) + [e];
      WithoutSyntheticSnoc(w, Synthetic);
      WithoutSyntheticSnoc(w + [Synthetic], e);
    } else {
      WithoutSyntheticSnoc(w, e);
    }
  }

  /** Removing the filler turns gives back the per-message entries. */
  lemma {:induction false} WithoutSyntheticUndoesInsertion(entries: seq<Entry>)
    requires Synthetic !in entries
    ensures WithoutSynthetic(WithSynthetic(entries)) == entries
    decreases |entries|
  {
    if entries != [] {
      var init, e := entries[..|entries| - 1], entries[|entries| - 1];
      assert entries == init + [e];
      assert Synthetic !in init && e != Synthetic by {
        assert forall x :: x in init ==> x in entries;
      }
      WithoutSyntheticUndoesInsertion(init);
      WithoutSyntheticAppendTurn(WithSynthetic(init), e);
    }
  }

  /** Every filler turn has a `user` entry on each side (so it is never first or last). */
  ghost predicate SyntheticBetweenUsers(s: seq<Entry>) {
    forall k :: 0 <= k < |s| && s[k] == Synthetic ==>
      0 < k < |s| - 1 && s[k - 1].role == UserRole && s[k + 1].role == UserRole
  }

  /**
   * A filler turn stands only between two `user` entries, when no
   * per-message entry is itself the filler.
   */
  lemma {:induction false} SyntheticOnlyBetweenUsers(entries: seq<Entry>)
    requires Synthetic !in entries
    ensures SyntheticBetweenUsers(WithSynthetic(entries))
    decreases |entries|
  {
    if entries != [] {
      var init, e := entries[..|entries| - 1], entries[|entries| - 1];
      assert entries == init + [e];
      assert Synthetic !in init && e != Synthetic by {
        assert forall x :: x in init ==> x in entries;
      }
      SyntheticOnlyBetweenUsers(init);
      var w, r := WithSynthetic(init), WithSynthetic(entries);
      if |w| > 0 && w[|w| - 1].role == UserRole && e.role == UserRole {
        assert r == w + [Synthetic, e];
        forall k | 0 <= k < |r| && r[k] == Synthetic
          ensures 0 < k < |r| - 1 && r[k - 1].role == UserRole && r[k + 1].role == UserRole
        {
          if k < |w| {
            assert r[k] == w[k];
            assert 0 < k < |w| - 1;
            assert r[k + 1] == w[k + 1] && r[k - 1] == w[k - 1];
          }
        }
      } else {
        assert r == w + [e];
        forall k | 0 <= k < |r| && r[k] == Synthetic
          ensures 0 < k < |r| - 1 && r[k - 1].role == UserRole && r[k + 1].role == UserRole
        {
          assert k < |w| && r[k] == w[k];
          assert 0 < k < |w| - 1;
          assert r[k + 1] == w[k + 1] && r[k - 1] == w[k - 1];
        }
      }
    }
  }

  /** The number of adjacent `user`/`user` pairs. */
  function UserPairs(entries: seq<Entry>): nat
    decreases |entries|
  {
    if |entries| < 2 then 0
    else UserPairs(entries[..|entries| - 1])
         + (if entries[|entries| - 2].role == UserRole && entries[|entries| - 1].role == UserRole then 1 else 0)
  }

  /** Exactly one filler turn per adjacent `user`/`user` pair of the per-message entries. */
  lemma {:induction false} WithSyntheticLength(entries: seq<Entry>)
    ensures |WithSynthetic(entries)| == |entries| + UserPairs(entries)
    decreases |entries|
  {
    if entries != [] {
      var init := entries[..|entries| - 1];
      WithSyntheticLength(init);
      if |entries| >= 2 {
        assert init[|init| - 1] == entries[|entries| - 2];
      }
    }
  }

  /** When roles never put two `user` entries side by side, nothing is inserted. */
  lemma {:induction false} WithSyntheticKeepsAlternation(entries: seq<Entry>)
    requires NoAdjacentUsers(entries)
    ensures WithSynthetic(entries) == entries
    decreases |entries|
  {
    if entries != [] {
      var init := entries[..|entries| - 1];
      WithSyntheticKeepsAlternation(init);
      assert entries == init + [entries[|entries| - 1]];
    }
  }

  /**
   * The Anthropic request for any transcript: no two `user` entries touch,
   * every filler turn sits between two `user` entries (never first), and
   * dropping the filler turns leaves exactly the per-message entries that
   * follow the OpenAI request's two system entries.
   */
  lemma AnthropicHistoryLaws(me: Character, history: seq<Message>)
    ensures var es := TextEntries(me, history);
            NoAdjacentUsers(WithSynthetic(es)) &&
            SyntheticBetweenUsers(WithSynthetic(es)) &&
            WithoutSynthetic(WithSynthetic(es)) == es
  {
    var es := TextEntries(me, history);
    SyntheticNotInTextEntries(me, history);
    WithSyntheticNoAdjacentUsers(es);
    SyntheticOnlyBetweenUsers(es);
    WithoutSyntheticUndoesInsertion(es);
  }

  /** `[user, user, assistant]` gets one filler turn between the two `user` entries. */
  lemma CollisionExample(a: Entry, b: Entry, c: Entry)
    requires a.role == UserRole && b.role == UserRole && c.role == AssistantRole
    ensures WithSynthetic([a, b, c]) == [a, Synthetic, b, c]
  {
    assert [a, b, c][..2] == [a, b];
    assert [a, b][..1] == [a];
    assert [a][..0] == [];
    assert WithSynthetic([a]) == [a];
    assert WithSynthetic([a, b]) == [a, Synthetic, b];
    assert c.role != UserRole by { assert AssistantRole[0] != UserRole[0]; }
  }

  /**
   * Roles compare characters, not seats: when seats 2 and 3 both run Claude 3
   * Opus, seat 3's turn reaches Claude as a second `assistant` entry right
   * after seat 2's, and nothing separates the two.
   */
  lemma SameModelSeatsShareAssistantRole(human: Message, second: Message, third: Message)
    requires human.player.character == User && human.content.Text?
    requires second.player.character == Claude3Opus && second.content.Text?
    requires third.player.character == Claude3Opus && third.content.Text?
    ensures var r := WithSynthetic(TextEntries(Claude3Opus, [human, second, third]));
            |r| == 3 && r[0].role == UserRole && r[1].role == AssistantRole && r[2].role == AssistantRole
  {
    var h := [human, second, third];
    assert h[1..] == [second, third] && h[1..][1..] == [third] && [third][1..] == [];
    var es := TextEntries(Claude3Opus, h);
    assert TextEntries(Claude3Opus, [third]) == [EntryOf(Claude3Opus, third)];
    assert TextEntries(Claude3Opus, [second, third]) == [EntryOf(Claude3Opus, second), EntryOf(Claude3Opus, third)];
    assert es == [EntryOf(Claude3Opus, human), EntryOf(Claude3Opus, second), EntryOf(Claude3Opus, third)];
    assert AssistantRole != UserRole by { assert AssistantRole[0] != UserRole[0]; }
    assert es[1].role == AssistantRole && es[2].role == AssistantRole;
    WithSyntheticKeepsAlternation(es);
  }

  /** One `{"role": ..., "message": ...}` entry of a Cohere chat request. */
  datatype CohereEntry = CohereEntry(role: string, message: string)

  /** A `{'id': ...}` connector of a Cohere chat request. */
  datatype Connector = Connector(id: string)

  /** The arguments of the Cohere `client.chat` call. */
  datatype CohereChat = CohereChat(model: string, chatHistory: seq<CohereEntry>, message: string,
                                   connectors: seq<Connector>)

  datatype CohereBackend = CohereBackend(systemPrompt: string, player: Player) {

    /** `_convert_role`: the two-role vocabulary into Cohere's three roles. */
    function ConvertRole(role: string): (r: Result<string>)
      ensures role == UserRole ==> r == Ok("USER")
      ensures role == AssistantRole ==> r == Ok("CHATBOT")
      ensures role == SystemRole ==> r == Ok("SYSTEM")
      ensures role != UserRole && role != AssistantRole && role != SystemRole ==> r == Err(KeyError)
    {
      if role == UserRole then Ok("USER")
      else if role == AssistantRole then Ok("CHATBOT")
      else if role == SystemRole then Ok("SYSTEM")
      else Err(KeyError)
    }

    /** `_convert_message`. */
    function ConvertMessage(m: Message): (r: Result<CohereEntry>)
      reads m
      ensures r.Ok? <==> m.content.Text?
      ensures r.Err? ==> r.error == TypeError
      ensures r.Ok? ==> r.value.message == m.LlmContent().value
      ensures r.Ok? ==> (r.value.role == "CHATBOT" <==> player.character.RoleFromOwnPerspective(m.player.character) == AssistantRole)
      ensures r.Ok? ==> (r.value.role == "USER" <==> player.character.RoleFromOwnPerspective(m.player.character) == UserRole)
    {
      // The perspective rule yields only "user" or "assistant", so the lookup succeeds.
      var role := ConvertRole(player.character.RoleFromOwnPerspective(m.player.character)).value;
      var message :- m.LlmContent();
      Ok(CohereEntry(role, message))
    }

    /** `[self._convert_message(m) for m in history]`. */
    function Encode(history: seq<Message>): (r: Result<seq<CohereEntry>>)
      reads history
      ensures r.Ok? <==> forall j :: 0 <= j < |history| ==> history[j].content.Text?
      ensures r.Err? ==> r.error == TypeError
      ensures r.Ok? ==> |r.value| == |history|
      ensures r.Ok? ==> forall j :: 0 <= j < |history| ==> Ok(r.value[j]) == ConvertMessage(history[j])
    {
      if history == [] then Ok([])
      else
        var head :- ConvertMessage(history[0]);
        var tail :- Encode(history[1..]);
        Ok([head] + tail)
    }

    /**
     * The request `get_next_message` hands to the Cohere client: the system
     * prompt and all encoded messages but the last as history, the last
     * message's text as the message.
     */
    function ChatRequest(history: seq<Message>): (r: Result<CohereChat>)
      reads history
      ensures r.Ok? <==> player.character.Npc() && history != [] &&
                         forall j :: 0 <= j < |history| ==> history[j].content.Text?
      ensures (exists j :: 0 <= j < |history| && !history[j].content.Text?) ==> r == Err(TypeError)
      ensures (player.character == User && forall j :: 0 <= j < |history| ==> history[j].content.Text?) ==>
                r == Err(TypeError)
      ensures player.character.Npc() && history == [] ==> r == Err(IndexError)
    {
      var system := CohereEntry("SYSTEM", systemPrompt);
      var encoded :- Encode(history);
      var model :- player.character.ModelSlug();
      if |encoded| == 0 then Err(IndexError)
      else
        Ok(CohereChat(model, [system] + encoded[..|encoded| - 1], encoded[|encoded| - 1].message,
                      [Connector("web-search")]))
    }
  }

  /**
   * A request that is built goes to the seat's model, starts with the system
   * prompt, carries every earlier turn in order, and sends the last turn's
   * text as the message.
   */
  lemma ChatRequestContents(b: CohereBackend, history: seq<Message>)
    requires b.ChatRequest(history).Ok?
    ensures var c := b.ChatRequest(history).value;
            c.model == b.player.character.ModelSlug().value &&
            |c.chatHistory| == |history| &&
            c.chatHistory[0] == CohereEntry("SYSTEM", b.systemPrompt) &&
            (forall j :: 0 <= j < |history| - 1 ==> Ok(c.chatHistory[j + 1]) == b.ConvertMessage(history[j])) &&
            c.message == history[|history| - 1].LlmContent().value
  {
    var encoded := b.Encode(history).value;
    var n := |encoded|;
    var c := b.ChatRequest(history).value;
    assert c.chatHistory == [CohereEntry("SYSTEM", b.systemPrompt)] + encoded[..n - 1];
    forall j | 0 <= j < |history| - 1
      ensures Ok(c.chatHistory[j + 1]) == b.ConvertMessage(history[j])
    {
      assert c.chatHistory[j + 1] == encoded[j];
    }
    assert c.message == encoded[n - 1].message;
    assert Ok(encoded[n - 1]) == b.ConvertMessage(history[n - 1]);
  }

  /** The backend kind `create_backend` constructs, with its construction-time bindings. */
  datatype Backend =
    | OpenAI(openai: OpenAIBackend)
    | Anthropic(anthropic: AnthropicBackend)
    | Cohere(cohere: CohereBackend)
  {
    /** The seat the backend speaks for. */
    function Seat(): Player {
      match this
      case OpenAI(b) => b.player
      case Anthropic(b) => b.player
      case Cohere(b) => b.player
    }

    function SystemPrompt(): string {
      match this
      case OpenAI(b) => b.systemPrompt
      case Anthropic(b) => b.systemPrompt
      case Cohere(b) => b.systemPrompt
    }
  }

  /** `create_backend`: dispatch on the seat's character; the human has no backend. */
  function CreateBackend(player: Player, systemPrompt: string): (r: Result<Backend>)
    ensures r.Ok? <==> player.character.Npc()
    ensures r.Err? ==> r.error == NotImplementedError
    ensures r.Ok? ==> r.value.Seat() == player && r.value.SystemPrompt() == systemPrompt
    ensures r.Ok? ==> (r.value.OpenAI? <==> player.character == Gpt4 || player.character == Gpt35)
    ensures r.Ok? ==> (r.value.Anthropic? <==> player.character == Claude3Opus)
    ensures r.Ok? ==> (r.value.Cohere? <==> player.character == CommandR || player.character == CommandRPlus)
  {
    match player.character
    case Gpt4 | Gpt35 => Ok(OpenAI(OpenAIBackend(systemPrompt, player)))
    case Claude3Opus => Ok(Anthropic(AnthropicBackend(systemPrompt, player)))
    case CommandR | CommandRPlus => Ok(Cohere(CohereBackend(systemPrompt, player)))
    case User => Err(NotImplementedError)
  }

  /**
   * Every backend goes to the vendor of its seat's model: its model
   * identifier exists and names that vendor's family.
   */
  lemma CreateBackendMatchesVendor(player: Player, systemPrompt: string)
    requires CreateBackend(player, systemPrompt).Ok?
    ensures var b, slug := CreateBackend(player, systemPrompt).value, player.character.ModelSlug();
            slug.Ok? &&
            (b.OpenAI? <==> "gpt-" <= slug.value) &&
            (b.Anthropic? <==> "claude-" <= slug.value) &&
            (b.Cohere? <==> "command-" <= slug.value)
  {
    var slug := player.character.ModelSlug().value;
    match player.character
    case Gpt4 =>
      assert slug[..4] == "gpt-" && slug[0] != "claude-"[0] && slug[0] != "command-"[0];
    case Gpt35 =>
      assert slug[..4] == "gpt-" && slug[0] != "claude-"[0] && slug[0] != "command-"[0];
    case Claude3Opus =>
      assert slug[..7] == "claude-" && slug[0] != "gpt-"[0] && slug[2] != "command-"[2];
    case CommandR =>
      assert slug[..8] == "command-" && slug[0] != "gpt-"[0] && slug[2] != "claude-"[2];
    case CommandRPlus =>
      assert slug[..8] == "command-" && slug[0] != "gpt-"[0] && slug[2] != "claude-"[2];
  }
}
