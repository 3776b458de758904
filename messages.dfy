/**
 * Turns of the transcript and the removal of an echoed label prefix from a
 * turn's text, both for a complete string and for a stream of chunks.
 */
module Messages {
  import opened Results
  import opened Characters

  /** A turn's content: a complete string, or the finite stream of chunks a vendor returned. */
  datatype Content = Text(text: string) | Chunks(chunks: seq<string>)

  /** `"".join(parts)`. */
  function Join(parts: seq<string>): string {
    if parts == [] then "" else parts[0] + Join(parts[1..])
  }

  function Min(a: nat, b: nat): nat {
    if a < b then a else b
  }

  /** Python's `str.removeprefix`. */
  function RemovePrefix(s: string, p: string): (r: string)
    ensures p <= s ==> s == p + r
    ensures !(p <= s) ==> r == s
  {
    if p <= s then s[|p|..] else s
  }

  /**
   * `Message._clean_content`: remove `prefix[:len(content)]` from the front of
   * `content` if it is there. The result is `content` itself or `content`
   * without that label part; what is removed is always a prefix of `prefix`.
   */
  function CleanContent(content: string, prefix: string): (r: string)
    ensures var k := Min(|content|, |prefix|);
            if prefix[..k] <= content then r == content[k..] else r == content
    ensures |r| <= |content| && r == content[|content| - |r|..]
    ensures content[..|content| - |r|] <= prefix
  {
    RemovePrefix(content, prefix[..Min(|content|, |prefix|)])
  }

  /**
   * What `Message._clean_iterable` yields for `chunks` when `rem` is what is
   * left of the label to strip: chunks are stripped against the shrinking
   * label until the first non-empty cleaned chunk, which is yielded; every
   * later chunk is yielded unchanged.
   */
  function CleanStream(chunks: seq<string>, rem: string): (r: seq<string>)
    decreases |chunks|
  {
    if chunks == [] then []
    else
      var clean := CleanContent(chunks[0], rem);
      if clean != "" then [clean] + chunks[1..]
      else CleanStream(chunks[1..], rem[|chunks[0]| - |clean|..])
  }

  lemma JoinCons(c: string, rest: seq<string>)
    ensures Join([c] + rest) == c + Join(rest)
  {
    assert ([c] + rest)[0] == c && ([c] + rest)[1..] == rest;
  }

  /** What one step of `CleanStream` does to the text, stated once for the lemmas below. */
  lemma CleanStreamHead(chunks: seq<string>, rem: string)
    requires chunks != []
    ensures Join(chunks) == chunks[0] + Join(chunks[1..])
    ensures var clean := CleanContent(chunks[0], rem);
            clean != "" ==> CleanStream(chunks, rem) == [clean] + chunks[1..] &&
                            Join(CleanStream(chunks, rem)) == clean + Join(chunks[1..])
    ensures var clean := CleanContent(chunks[0], rem);
            clean == "" ==> chunks[0] <= rem &&
                            CleanStream(chunks, rem) == CleanStream(chunks[1..], rem[|chunks[0]|..])
  {
    var c, clean := chunks[0], CleanContent(chunks[0], rem);
    if clean != "" {
      JoinCons(clean, chunks[1..]);
    } else {
      assert c[..|c|] == c;
    }
  }

  /**
   * Split invariance: when the whole stream starts with the label, the cleaned
   * stream spells the input without the label, however the input was chunked.
   */
  lemma {:induction false} CleanStreamStripsLabel(chunks: seq<string>, rem: string)
    requires rem <= Join(chunks)
    ensures Join(CleanStream(chunks, rem)) == Join(chunks)[|rem|..]
    decreases |chunks|
  {
    if chunks != [] {
      var c, rest := chunks[0], chunks[1..];
      var r := Join(rest);
      var clean := CleanContent(c, rem);
      CleanStreamHead(chunks, rem);
      if |c| >= |rem| {
        assert rem <= c;
        assert clean == c[|rem|..] by {
          assert Min(|c|, |rem|) == |rem| && rem[..|rem|] == rem;
        }
        assert (c + r)[|rem|..] == clean + r;
        if clean == "" {
          assert rem[|c|..] == "" && r[|""|..] == r;
          CleanStreamStripsLabel(rest, "");
        }
      } else {
        assert clean == "" by {
          assert rem[..|c|] <= c;
        }
        var rem' := rem[|c|..];
        assert rem' <= r;
        assert (c + r)[|rem|..] == r[|rem'|..];
        CleanStreamStripsLabel(rest, rem');
      }
    }
  }

  /** Two chunkings of the same labelled text clean to the same text. */
  lemma CleanStreamSplitInvariant(a: seq<string>, b: seq<string>, tag: string)
    requires Join(a) == Join(b) && tag <= Join(a)
    ensures Join(CleanStream(a, tag)) == Join(CleanStream(b, tag))
  {
    CleanStreamStripsLabel(a, tag);
    CleanStreamStripsLabel(b, tag);
  }

  /** Cutting the front off `c` in `c + r` is cutting it off `c`. */
  lemma SuffixOfConcat(c: string, x: string, r: string)
    requires |x| <= |c| && x == c[|c| - |x|..]
    ensures (c + r)[|c + r| - |x + r|..] == x + r
    ensures (c + r)[..|c + r| - |x + r|] == c[..|c| - |x|]
  {
  }

  /** A suffix of `r` is a suffix of `c + r`, with `c` added to what is cut. */
  lemma SuffixOfTail(c: string, r: string, o: string)
    requires |o| <= |r| && o == r[|r| - |o|..]
    ensures (c + r)[|c + r| - |o|..] == o
    ensures (c + r)[..|c + r| - |o|] == c + r[..|r| - |o|]
  {
  }

  /** Prefixes of the label compose along the label. */
  lemma PrefixThenPrefix(c: string, t: string, rem: string)
    requires c <= rem && t <= rem[|c|..]
    ensures c + t <= rem
  {
    assert rem[..|c| + |t|] == rem[..|c|] + rem[|c|..][..|t|];
  }

  /**
   * Cleaning never adds text: the cleaned stream spells a suffix of the input,
   * and the part removed is a prefix of the label.
   */
  lemma {:induction false} CleanStreamRemovesOnlyLabel(chunks: seq<string>, rem: string)
    ensures var s, o := Join(chunks), Join(CleanStream(chunks, rem));
            |o| <= |s| && o == s[|s| - |o|..] && s[..|s| - |o|] <= rem
    decreases |chunks|
  {
    if chunks != [] {
      var c, rest := chunks[0], chunks[1..];
      var r := Join(rest);
      var clean := CleanContent(c, rem);
      CleanStreamHead(chunks, rem);
      if clean != "" {
        SuffixOfConcat(c, clean, r);
      } else {
        var rem' := rem[|c|..];
        CleanStreamRemovesOnlyLabel(rest, rem');
        var o := Join(CleanStream(rest, rem'));
        SuffixOfTail(c, r, o);
        PrefixThenPrefix(c, r[..|r| - |o|], rem);
      }
    }
  }

  /**
   * Once a non-empty cleaned chunk has been yielded, every later chunk passes
   * through unchanged.
   */
  lemma {:induction false} CleanStreamPassesThrough(chunks: seq<string>, rem: string)
    ensures var o := CleanStream(chunks, rem);
            |o| <= |chunks| && (o != [] ==> o[0] != "" && o[1..] == chunks[|chunks| - |o| + 1..])
    decreases |chunks|
  {
    if chunks != [] {
      CleanStreamHead(chunks, rem);
      if CleanContent(chunks[0], rem) == "" {
        CleanStreamPassesThrough(chunks[1..], rem[|chunks[0]|..]);
      }
    }
  }

  /**
   * The chunks before the first yielded one were wholly part of the label;
   * when nothing is yielded, the whole input was a prefix of the label.
   */
  lemma {:induction false} CleanStreamSkipsOnlyLabel(chunks: seq<string>, rem: string)
    ensures var o := CleanStream(chunks, rem);
            |o| <= |chunks| && Join(chunks[..|chunks| - |o|]) <= rem
    decreases |chunks|
  {
    if chunks != [] {
      var c, rest := chunks[0], chunks[1..];
      CleanStreamHead(chunks, rem);
      if CleanContent(c, rem) != "" {
        assert chunks[..0] == [];
      } else {
        var rem' := rem[|c|..];
        CleanStreamSkipsOnlyLabel(rest, rem');
        var i := |rest| - |CleanStream(rest, rem')|;
        assert chunks[..i + 1] == [c] + rest[..i];
        JoinCons(c, rest[..i]);
        PrefixThenPrefix(c, Join(rest[..i]), rem);
      }
    }
  }

  /**
   * If the stream starts with only part of the label, the result depends on
   * the chunking: a reply "**Hi" yields "**Hi" in one chunk but "Hi" when
   * its "**" arrives as a chunk of its own.
   */
  lemma PartialLabelIsSplitSensitive()
    ensures CleanStream(["**Hi"], "**Player #2 (GPT-4)**") == ["**Hi"]
    ensures CleanStream(["**", "Hi"], "**Player #2 (GPT-4)**") == ["Hi"]
  {
    var tag := "**Player #2 (GPT-4)**";
    assert tag[..4] == "**Pl";
    assert !("**Pl" <= "**Hi") by { assert "**Pl"[2] != "**Hi"[2]; }
    var whole := CleanContent("**Hi", tag);
    assert whole == "**Hi";
    var first := CleanContent("**", tag);
    assert tag[..2] == "**";
    assert first == "";
    var rest := tag[2..];
    assert rest[..2] == "Pl";
    assert !("Pl" <= "Hi") by { assert "Pl"[0] != "Hi"[0]; }
    var second := CleanContent("Hi", rest);
    assert second == "Hi";
    assert CleanStream(["Hi"], rest) == ["Hi"];
    assert ["**", "Hi"][1..] == ["Hi"];
  }

  /** A turn of the transcript, owned by one seat. */
  class Message {
    const player: Player
    var content: Content

    constructor (player: Player, content: Content)
      ensures this.player == player && this.content == content
    {
      this.player := player;
      this.content := content;
    }

    /** The bold label `**Player #i (name)**` that heads this turn. */
    function MessagePrefix(): string {
      "**" + player.DisplayName() + "**"
    }

    /**
     * The label, a newline and the text, as sent to a model. Concatenating a
     * stream is a TypeError in Python.
     */
    function LlmContent(): (r: Result<string>)
      reads this
      ensures r.Ok? <==> content.Text?
      ensures r.Err? ==> r.error == TypeError
      ensures r.Ok? ==> MessagePrefix() <= r.value
    {
      if content.Text? then Ok(MessagePrefix() + "\n" + content.text) else Err(TypeError)
    }

    /** Cleaning a turn's model-facing text against its own label leaves the newline and the text. */
    lemma LlmContentCleansToText()
      requires content.Text?
      ensures CleanContent(LlmContent().value, MessagePrefix()) == "\n" + content.text
    {
      var p, s := MessagePrefix(), LlmContent().value;
      assert s == p + ("\n" + content.text);
      assert Min(|s|, |p|) == |p| && p[..|p|] == p;
    }

    /** `_clean_iterable`: the while loop with its prefix cursor and `continue_` flag. */
    method CleanIterable(chunks: seq<string>) returns (out: seq<string>)
      ensures out == CleanStream(chunks, MessagePrefix())
      ensures MessagePrefix() <= Join(chunks) ==>
                Join(out) == Join(chunks)[|MessagePrefix()|..]
    {
      var continue_ := true;
      var i := 0;
      var prefix := MessagePrefix();
      ghost var tag := prefix;
      out := [];
      while continue_ && i < |chunks|
        invariant 0 <= i <= |chunks|
        invariant continue_ ==> out == []
        invariant continue_ ==> CleanStream(chunks, tag) == CleanStream(chunks[i..], prefix)
        invariant !continue_ ==> out + chunks[i..] == CleanStream(chunks, tag)
      {
        var chunk := chunks[i];
        assert chunks[i..][0] == chunk && chunks[i..][1..] == chunks[i + 1..];
        CleanStreamHead(chunks[i..], prefix);
        i := i + 1;
        var clean := CleanContent(chunk, prefix);
        var choppedLen := |chunk| - |clean|;
        prefix := prefix[choppedLen..];
        if clean != "" {
          out := out + [clean];
          continue_ := false;
        }
      }
      // `yield from it`; when the loop stopped on StopIteration nothing is left.
      out := out + chunks[i..];
      if tag <= Join(chunks) {
        CleanStreamStripsLabel(chunks, tag);
      }
    }

    /**
     * `_ensure_clean_content_iterable`, drained to the end. A string yields one
     * chunk, itself cleaned, and stays as it was; a stream yields its cleaned
     * chunks and is then frozen to the string they spell.
     */
    method EnsureCleanContentIterable() returns (yielded: seq<string>)
      modifies this
      ensures old(content).Text? ==>
                yielded == [CleanContent(old(content).text, MessagePrefix())] && content == old(content)
      ensures old(content).Chunks? ==>
                yielded == CleanStream(old(content).chunks, MessagePrefix()) && content == Text(Join(yielded))
      ensures old(content).Chunks? && MessagePrefix() <= Join(old(content).chunks) ==>
                content == Text(Join(old(content).chunks)[|MessagePrefix()|..])
    {
      var c := content;
      if c.Text? {
        yielded := [CleanContent(c.text, MessagePrefix())];
      } else {
        var cleaned := CleanIterable(c.chunks);
        var parts := [];
        yielded := [];
        for k := 0 to |cleaned|
          invariant parts == cleaned[..k]
          invariant yielded == cleaned[..k]
        {
          parts := parts + [cleaned[k]];
          yielded := yielded + [cleaned[k]];
        }
        assert parts == cleaned;
        content := Text(Join(parts));
      }
    }
  }
}
