/** The scanner that decides whether a statement bypasses the cache because it changes the schema. */
module SchemaKeywords {

  const KEYWORDS: seq<string> := ["ATTACH", "DETACH", "CREATE", "DROP", "ALTER"]

  /** The characters skipped in front of the first token. */
  predicate IsBlank(c: char) {
    c == ' ' || c == '\t' || c == '\r' || c == '\n'
  }

  /** The characters that end the first token: white space of the C locale, `;` and `(`. */
  predicate IsDelimiter(c: char) {
    IsBlank(c) || c == '\U{0B}' || c == '\U{0C}' || c == ';' || c == '('
  }

  function ToUpper(c: char): char {
    if 'a' <= c <= 'z' then c - 32 as char else c
  }

  function Uppercase(s: string): (r: string)
    ensures |r| == |s| && forall k :: 0 <= k < |s| ==> r[k] == ToUpper(s[k])
  {
    if s == [] then [] else [ToUpper(s[0])] + Uppercase(s[1..])
  }

  function TrimLeft(sql: string): string {
    if sql != [] && IsBlank(sql[0]) then TrimLeft(sql[1..]) else sql
  }

  /** The first token of `view`, in upper case. */
  function TokenUpper(view: string): string {
    if view == [] || IsDelimiter(view[0]) then [] else [ToUpper(view[0])] + TokenUpper(view[1..])
  }

  predicate IsSchemaChanging(sql: string) {
    TokenUpper(TrimLeft(sql)) in KEYWORDS
  }

  /** The characters of `word` are those of `keyword`, as capital or as small letters. */
  predicate Spells(word: string, keyword: string) {
    |word| == |keyword| &&
    forall k :: 0 <= k < |word| ==> word[k] == keyword[k] || word[k] as int == keyword[k] as int + 32
  }

  /** `sql` is blanks up to `i`, then up to `j` a word that spells `keyword`, and then ends or has a delimiter. */
  predicate WordAt(sql: string, i: nat, j: nat, keyword: string) {
    && i <= j <= |sql|
    && (forall k :: 0 <= k < i ==> sql[k] in [' ', '\t', '\r', '\n'])
    && Spells(sql[i..j], keyword)
    && (j < |sql| ==> sql[j] in [' ', '\t', '\r', '\n', '\U{0B}', '\U{0C}', ';', '('])
  }

  /**
   The scanner answers yes exactly for texts that begin, after spaces, tabs and line ends, with one of the five
   words in either case, letter by letter, followed by nothing, white space, a semicolon or a parenthesis.
   */
  lemma SchemaChangingIff(sql: string)
    ensures IsSchemaChanging(sql) <==>
            exists i: nat, j: nat, keyword ::
              WordAt(sql, i, j, keyword) && keyword in ["ATTACH", "DETACH", "CREATE", "DROP", "ALTER"]
  {
    ScannerIff(sql);
    if i: nat, j: nat, keyword :| keyword in KEYWORDS && KeywordAt(sql, i, j, keyword) {
      KeywordIsUpper(keyword);
      SpellsUppercase(sql[i..j], keyword);
      assert WordAt(sql, i, j, keyword);
    }
    if i: nat, j: nat, keyword :|
      WordAt(sql, i, j, keyword) && keyword in ["ATTACH", "DETACH", "CREATE", "DROP", "ALTER"] {
      KeywordIsUpper(keyword);
      SpellsUppercase(sql[i..j], keyword);
      assert KeywordAt(sql, i, j, keyword);
    }
  }

  lemma SpellsUppercase(word: string, keyword: string)
    requires forall k :: 0 <= k < |keyword| ==> 'A' <= keyword[k] <= 'Z'
    ensures Spells(word, keyword) <==> Uppercase(word) == keyword
  {
    if Spells(word, keyword) {
      assert forall k :: 0 <= k < |word| ==> Uppercase(word)[k] == keyword[k];
    }
  }

  /** `sql` is blanks up to `i`, then up to `j` a word that reads `keyword` in any case, then a delimiter or nothing. */
  predicate KeywordAt(sql: string, i: nat, j: nat, keyword: string) {
    && i <= j <= |sql|
    && (forall k :: 0 <= k < i ==> IsBlank(sql[k]))
    && Uppercase(sql[i..j]) == keyword
    && (j < |sql| ==> IsDelimiter(sql[j]))
  }

  lemma ScannerIff(sql: string)
    ensures IsSchemaChanging(sql) <==>
            exists i: nat, j: nat, keyword :: keyword in KEYWORDS && KeywordAt(sql, i, j, keyword)
  {
    if IsSchemaChanging(sql) {
      var i, j := FoundAt(sql);
      assert KeywordAt(sql, i, j, TokenUpper(TrimLeft(sql)));
    }
    forall i: nat, j: nat, keyword | keyword in KEYWORDS && KeywordAt(sql, i, j, keyword)
      ensures IsSchemaChanging(sql)
    {
      KeywordDecides(sql, i, j);
    }
  }

  /** Where the scanner finds the token. */
  lemma FoundAt(sql: string) returns (i: nat, j: nat)
    ensures KeywordAt(sql, i, j, TokenUpper(TrimLeft(sql)))
  {
    TrimShape(sql);
    var view := TrimLeft(sql);
    var n := TokenShape(view);
    i := |sql| - |view|;
    j := i + n;
    assert view == sql[i..];
    assert sql[i..][..n] == sql[i..j];
  }

  lemma KeywordDecides(sql: string, i: nat, j: nat)
    requires i <= j <= |sql| && KeywordAt(sql, i, j, Uppercase(sql[i..j])) && Uppercase(sql[i..j]) in KEYWORDS
    ensures IsSchemaChanging(sql)
  {
    var word, rest := sql[i..j], sql[j..];
    KeywordLetters(word);
    assert sql[i] == word[0];
    TrimAt(sql, i);
    assert sql[i..] == word + rest;
    TokenAt(word, rest);
  }

  lemma TrimShape(sql: string)
    ensures |TrimLeft(sql)| <= |sql|
    ensures var i := |sql| - |TrimLeft(sql)|;
            && TrimLeft(sql) == sql[i..]
            && (forall k :: 0 <= k < i ==> IsBlank(sql[k])) && (i < |sql| ==> !IsBlank(sql[i]))
  {
  }

  lemma TokenShape(view: string) returns (n: nat)
    ensures n <= |view| && TokenUpper(view) == Uppercase(view[..n])
    ensures n < |view| ==> IsDelimiter(view[n])
    ensures forall k :: 0 <= k < n ==> !IsDelimiter(view[k])
  {
    if view == [] || IsDelimiter(view[0]) {
      n := 0;
    } else {
      var m := TokenShape(view[1..]);
      n := m + 1;
      assert view[..n] == [view[0]] + view[1..][..m];
    }
  }

  lemma TrimAt(sql: string, a: nat)
    requires a < |sql| && !IsBlank(sql[a]) && forall k :: 0 <= k < a ==> IsBlank(sql[k])
    ensures TrimLeft(sql) == sql[a..]
  {
    if a > 0 {
      TrimAt(sql[1..], a - 1);
    }
  }

  lemma {:induction false} TokenAt(word: string, rest: string)
    requires forall k :: 0 <= k < |word| ==> !IsDelimiter(word[k])
    requires rest == [] || IsDelimiter(rest[0])
    ensures TokenUpper(word + rest) == Uppercase(word)
  {
    if word == [] {
      assert word + rest == rest;
    } else {
      assert (word + rest)[1..] == word[1..] + rest;
      TokenAt(word[1..], rest);
    }
  }

  /** The keywords are made of letters, none of which is skipped or ends a token. */
  lemma KeywordLetters(word: string)
    requires Uppercase(word) in KEYWORDS
    ensures word != [] && forall k :: 0 <= k < |word| ==> !IsDelimiter(word[k])
  {
    var keyword := Uppercase(word);
    KeywordIsUpper(keyword);
    forall k | 0 <= k < |word| ensures !IsDelimiter(word[k]) {
      assert keyword[k] == ToUpper(word[k]);
      LetterIsNoDelimiter(word[k]);
    }
  }

  lemma KeywordIsUpper(keyword: string)
    requires keyword in KEYWORDS
    ensures keyword != [] && forall k :: 0 <= k < |keyword| ==> 'A' <= keyword[k] <= 'Z'
  {
  }

  lemma LetterIsNoDelimiter(c: char)
    requires 'A' <= ToUpper(c) <= 'Z'
    ensures !IsDelimiter(c)
  {
  }

  /**
   The first token of a text runs from its first character that is no blank up to the first delimiter after it, or to
   the end, with small letters made capital and all else kept.
   */
  lemma TokenLaw(sql: string) returns (i: nat, j: nat)
    ensures i <= j <= |sql| && (forall k :: 0 <= k < i ==> sql[k] in [' ', '\t', '\r', '\n'])
    ensures i < |sql| ==> sql[i] !in [' ', '\t', '\r', '\n']
    ensures forall k :: i <= k < j ==> sql[k] !in [' ', '\t', '\r', '\n', '\U{0B}', '\U{0C}', ';', '(']
    ensures j < |sql| ==> sql[j] in [' ', '\t', '\r', '\n', '\U{0B}', '\U{0C}', ';', '(']
    ensures var token := TokenUpper(TrimLeft(sql));
            && |token| == j - i
            && forall k :: 0 <= k < j - i ==>
                 token[k] == if 'a' <= sql[i + k] <= 'z' then sql[i + k] - 32 as char else sql[i + k]
  {
    TrimShape(sql);
    var view := TrimLeft(sql);
    var n := TokenShape(view);
    i := |sql| - |view|;
    j := i + n;
    assert view == sql[i..] && forall k :: 0 <= k < n ==> view[..n][k] == sql[i + k];
  }

  /** `first_token_upper`: the loop that collects the token. */
  method FirstTokenUpper(sql: string) returns (token: string)
    ensures token == TokenUpper(TrimLeft(sql))
  {
    var view := TrimLeft(sql);
    token := "";
    var i := 0;
    while i < |view| && !IsDelimiter(view[i])
      invariant i <= |view|
      invariant TokenUpper(view) == token + TokenUpper(view[i..])
    {
      token := token + [ToUpper(view[i])];
      i := i + 1;
    }
  }

  /** A leading comment hides the keyword: such a text never bypasses the cache, whatever statement follows. */
  lemma CommentHidesKeyword(rest: string)
    ensures !IsSchemaChanging("--" + rest) && !IsSchemaChanging("/*" + rest)
  {
    assert TokenUpper("--" + rest)[0] == '-';
    assert TokenUpper("/*" + rest)[0] == '/';
  }
}
