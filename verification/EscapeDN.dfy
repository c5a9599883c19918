/** Escaping a value for a distinguished name (internal/idexport/idexport.go, escapeDN), against the
    grammar and the decoding of RFC 4514, sections 2.4 and 3. */
module EscapeDN {
  import opened Common

  /** What ranging over a Go string yields: a character, or a byte that is not part of one. */
  datatype Symbol = Rune(c: char) | BadByte(b: nat)

  /** The character the loop sees; a stray byte reads as U+FFFD. */
  function Seen(s: Symbol): char {
    match s case Rune(c) => c case BadByte(_) => '\U{FFFD}'
  }

  const SPECIAL: set<char> := {'"', '+', ',', ';', '<', '>', '\\'}

  /** How one character is written: as it is, after a backslash, or in hex. */
  datatype Token = Plain(c: char) | Escaped(c: char) | Hex(c: char)

  function TokenAt(s: seq<Symbol>, i: nat): Token
    requires i < |s|
  {
    var r := Seen(s[i]);
    if (i == 0 && (r == '#' || r == ' ')) || (i == |s| - 1 && r == ' ') then Escaped(r)
    else if r in SPECIAL then Escaped(r)
    else if r == '\0' then Hex(r)
    else Plain(r)
  }

  function Written(t: Token): string {
    match t
    case Plain(c) => [c]
    case Escaped(c) => ['\\', c]
    case Hex(_) => "\\00"
  }

  function EscapeFrom(s: seq<Symbol>, i: nat): string
    requires i <= |s|
    decreases |s| - i
  {
    if i == |s| then "" else Written(TokenAt(s, i)) + EscapeFrom(s, i + 1)
  }

  lemma {:induction false} EscapeSplit(s: seq<Symbol>, i: nat, b: string)
    requires i < |s| && EscapeFrom(s, 0) == b + EscapeFrom(s, i)
    ensures EscapeFrom(s, 0) == b + Written(TokenAt(s, i)) + EscapeFrom(s, i + 1)
  {
  }

  method Escape(s: seq<Symbol>) returns (b: string)
    ensures b == EscapeFrom(s, 0)
  {
    b := "";
    for i := 0 to |s|
      invariant EscapeFrom(s, 0) == b + EscapeFrom(s, i)
    {
      EscapeSplit(s, i, b);
      var r := Seen(s[i]);
      if (i == 0 && (r == '#' || r == ' ')) || (i == |s| - 1 && r == ' ') { b := b + ['\\', r]; }
      else if r in SPECIAL { b := b + ['\\', r]; }
      else if r == '\0' { b := b + "\\00"; }
      else { b := b + [r]; }
    }
  }

  // --- reading it back: section 3 ---

  /** Characters that may not stand plain anywhere. */
  predicate Reserved(c: char) {
    c == '"' || c == '+' || c == ',' || c == ';' || c == '<' || c == '>' || c == '\\'
  }

  /** Characters a backslash may stand before. */
  predicate Escapable(c: char) {
    Reserved(c) || c == ' ' || c == '#' || c == '='
  }

  function HexValue(c: char): Option<nat> {
    if '0' <= c <= '9' then Some(c as nat - '0' as nat)
    else if 'a' <= c <= 'f' then Some(c as nat - 'a' as nat + 10)
    else if 'A' <= c <= 'F' then Some(c as nat - 'A' as nat + 10)
    else None
  }

  /** The pairs and plain characters of an escaped value. Hex pairs are read for ASCII only, which is
      all escapeDN writes. */
  function Tokens(t: string): Option<seq<Token>> {
    if t == "" then Some([])
    else if t[0] != '\\' then
      match Tokens(t[1..]) case None => None case Some(rest) => Some([Plain(t[0])] + rest)
    else if |t| >= 2 && Escapable(t[1]) then
      match Tokens(t[2..]) case None => None case Some(rest) => Some([Escaped(t[1])] + rest)
    else if |t| >= 3 && HexValue(t[1]).Some? && HexValue(t[2]).Some?
      && 16 * HexValue(t[1]).value + HexValue(t[2]).value < 128 then
      match Tokens(t[3..])
      case None => None
      case Some(rest) => Some([Hex((16 * HexValue(t[1]).value + HexValue(t[2]).value) as char)] + rest)
    else None
  }

  function Values(ts: seq<Token>): string {
    seq(|ts|, i requires 0 <= i < |ts| => ts[i].c)
  }

  function Decode(t: string): Option<string> {
    match Tokens(t) case None => None case Some(ts) => Some(Values(ts))
  }

  /** The grammar of section 2.4: special characters only in pairs, no plain space or # in front, no plain
      space at the end. */
  predicate WellFormed(ts: seq<Token>) {
    && (forall i :: 0 <= i < |ts| && ts[i].Plain? ==> !Reserved(ts[i].c) && ts[i].c != '\0')
    && (|ts| > 0 && ts[0].Plain? ==> ts[0].c != ' ' && ts[0].c != '#')
    && (|ts| > 0 && ts[|ts| - 1].Plain? ==> ts[|ts| - 1].c != ' ')
  }

  function TokensFrom(s: seq<Symbol>, i: nat): seq<Token>
    requires i <= |s|
  {
    seq(|s| - i, k requires 0 <= k < |s| - i => TokenAt(s, i + k))
  }

  /** A token as Escape writes it. */
  predicate Writable(t: Token) {
    match t
    case Plain(c) => c !in SPECIAL
    case Escaped(c) => Escapable(c)
    case Hex(c) => c == '\0'
  }

  lemma TokenBack(t: Token, rest: string, ts: seq<Token>)
    requires Writable(t) && Tokens(rest) == Some(ts)
    ensures Tokens(Written(t) + rest) == Some([t] + ts)
  {
    var whole := Written(t) + rest;
    match t
    case Plain(c) =>
      assert c != '\\' && whole[1..] == rest;
    case Escaped(c) =>
      assert whole[0] == '\\' && whole[1] == c && whole[2..] == rest;
    case Hex(c) =>
      assert whole[0] == '\\' && whole[1] == '0' && whole[2] == '0' && whole[3..] == rest;
      assert !Escapable('0') && HexValue('0') == Some(0);
  }

  lemma EscapeStep(s: seq<Symbol>, i: nat)
    requires i < |s|
    ensures EscapeFrom(s, i) == Written(TokenAt(s, i)) + EscapeFrom(s, i + 1)
    ensures TokensFrom(s, i) == [TokenAt(s, i)] + TokensFrom(s, i + 1)
  {
  }

  lemma {:induction false} TokensBack(s: seq<Symbol>, i: nat)
    requires i <= |s|
    ensures Tokens(EscapeFrom(s, i)) == Some(TokensFrom(s, i))
    decreases |s| - i
  {
    if i < |s| {
      TokensBack(s, i + 1);
      TokenBack(TokenAt(s, i), EscapeFrom(s, i + 1), TokensFrom(s, i + 1));
      EscapeStep(s, i);
    } else {
      assert TokensFrom(s, i) == [];
    }
  }

  /** The characters a string shows. */
  function Shown(s: seq<Symbol>): string {
    seq(|s|, i requires 0 <= i < |s| => Seen(s[i]))
  }

  /** Every escaped value is well-formed, and decodes to the characters that were escaped. */
  lemma RoundTrip(s: seq<Symbol>)
    ensures Tokens(EscapeFrom(s, 0)).Some? && WellFormed(Tokens(EscapeFrom(s, 0)).value)
    ensures Decode(EscapeFrom(s, 0)) == Some(Shown(s))
  {
    TokensBack(s, 0);
    var ts := TokensFrom(s, 0);
    assert forall i :: 0 <= i < |s| ==> ts[i] == TokenAt(s, i) && ts[i].c == Seen(s[i]);
    assert Values(ts) == Shown(s);
  }

  /** Nothing is escaped without need: written plainly, any escaped character would break the grammar. */
  lemma NothingSpared(s: seq<Symbol>, i: nat)
    requires i < |s| && !TokensFrom(s, 0)[i].Plain?
    ensures !WellFormed(TokensFrom(s, 0)[i := Plain(Seen(s[i]))])
  {
    var ts := TokensFrom(s, 0)[i := Plain(Seen(s[i]))];
    assert TokensFrom(s, 0)[i] == TokenAt(s, i) && ts[i] == Plain(Seen(s[i]));
  }

  function Runes(t: string): seq<Symbol> {
    seq(|t|, i requires 0 <= i < |t| => Rune(t[i]))
  }

  /** So a value comes back as it was exactly if all its bytes are characters; a byte that is not comes
      back as U+FFFD. */
  lemma LosslessExactly(s: seq<Symbol>)
    ensures Decode(EscapeFrom(s, 0)).Some?
    ensures Runes(Decode(EscapeFrom(s, 0)).value) == s <==> forall i :: 0 <= i < |s| ==> s[i].Rune?
  {
    RoundTrip(s);
    var back := Runes(Shown(s));
    assert forall i :: 0 <= i < |s| ==> back[i] == Rune(Seen(s[i]));
    if back == s {
      forall i | 0 <= i < |s| ensures s[i].Rune? { assert back[i] == s[i]; }
    }
  }
}
