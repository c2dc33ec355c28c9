/** The HTML escaping both the gift guide and the trait viewer apply to text they interpolate. */
module Html {

  /** The characters `escapeHtml` replaces. */
  predicate IsSpecial(c: char) {
    c == '&' || c == '<' || c == '>' || c == '"' || c == '\''
  }

  function EscapeChar(c: char): string {
    if c == '&' then "&amp;"
    else if c == '<' then "&lt;"
    else if c == '>' then "&gt;"
    else if c == '"' then "&quot;"
    else if c == '\'' then "&#39;"
    else [c]
  }

  /**
    `escapeHtml(s)`: each of the five special characters becomes its entity,
    so the output holds no raw `<`, `>`, `"` or `'`.
   */
  function EscapeHtml(s: string): (r: string)
    ensures forall i :: 0 <= i < |r| ==> r[i] != '<' && r[i] != '>' && r[i] != '"' && r[i] != '\''
    ensures |r| >= |s|
  {
    if |s| == 0 then "" else EscapeChar(s[0]) + EscapeHtml(s[1..])
  }

  /** Decodes the five entities `EscapeHtml` produces; every other character stands for itself. */
  function UnescapeHtml(s: string): string
    decreases |s|
  {
    if |s| == 0 then ""
    else if s[0] == '&' && |s| >= 5 && s[..5] == "&amp;" then "&" + UnescapeHtml(s[5..])
    else if s[0] == '&' && |s| >= 4 && s[..4] == "&lt;" then "<" + UnescapeHtml(s[4..])
    else if s[0] == '&' && |s| >= 4 && s[..4] == "&gt;" then ">" + UnescapeHtml(s[4..])
    else if s[0] == '&' && |s| >= 6 && s[..6] == "&quot;" then "\"" + UnescapeHtml(s[6..])
    else if s[0] == '&' && |s| >= 5 && s[..5] == "&#39;" then "'" + UnescapeHtml(s[5..])
    else [s[0]] + UnescapeHtml(s[1..])
  }

  /** Decoding an entity followed by more text: `entity` is the first rule that fits. */
  lemma UnescapeEntity(entity: string, c: char, rest: string)
    requires IsSpecial(c) && entity == EscapeChar(c)
    ensures UnescapeHtml(entity + rest) == [c] + UnescapeHtml(rest)
  {
    var s := entity + rest;
    assert s[..|entity|] == entity && s[|entity|..] == rest;
    if c == '&' {
    } else if c == '<' {
      assert s[1] == 'l';
    } else if c == '>' {
      assert s[1] == 'g';
    } else if c == '"' {
      assert s[1] == 'q';
    } else {
      assert s[1] == '#';
    }
  }

  /** Decoding undoes the escaping of one character. */
  lemma UnescapeStep(c: char, rest: string)
    ensures UnescapeHtml(EscapeChar(c) + rest) == [c] + UnescapeHtml(rest)
  {
    if IsSpecial(c) {
      UnescapeEntity(EscapeChar(c), c, rest);
    } else {
      var s := [c] + rest;
      assert s[0] == c && s[1..] == rest;
    }
  }

  /** Escaping loses nothing: decoding the entities gives the original text back. */
  lemma {:induction false} EscapeRoundTrip(s: string)
    ensures UnescapeHtml(EscapeHtml(s)) == s
  {
    if |s| > 0 {
      UnescapeStep(s[0], EscapeHtml(s[1..]));
      EscapeRoundTrip(s[1..]);
      assert s == [s[0]] + s[1..];
    }
  }

  /** Text without special characters is left exactly as it is. */
  lemma {:induction false} EscapePlainText(s: string)
    requires forall i :: 0 <= i < |s| ==> !IsSpecial(s[i])
    ensures EscapeHtml(s) == s
  {
    if |s| > 0 {
      EscapePlainText(s[1..]);
      assert s == [s[0]] + s[1..];
    }
  }
}
