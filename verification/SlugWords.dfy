/** Slug normalisation told by the words of a text. */
module SlugWords {
  import opened Slugs

  ghost predicate IsWordChar(c: char) {
    'a' <= c <= 'z' || '0' <= c <= '9'
  }

  ghost predicate EndsInWord(s: string) {
    s != "" && IsWordChar(s[|s| - 1])
  }

  /** The longest runs of letters and digits, in order. */
  ghost function Words(s: string): (words: seq<string>)
    ensures EndsInWord(s) ==> words != []
  {
    if s == "" then []
    else
      var front, c := s[..|s| - 1], s[|s| - 1];
      var words := Words(front);
      if !IsWordChar(c) then words
      else if EndsInWord(front) then words[..|words| - 1] + [words[|words| - 1] + [c]]
      else words + [[c]]
  }

  /** The words, each followed by a dash. */
  ghost function Dashed(words: seq<string>): string {
    if words == [] then "" else Dashed(words[..|words| - 1]) + words[|words| - 1] + "-"
  }

  /** The words with single dashes between them. */
  ghost function Join(words: seq<string>): string {
    if words == [] then "" else Dashed(words[..|words| - 1]) + words[|words| - 1]
  }

  ghost predicate IsWord(w: string) {
    w != "" && forall i :: 0 <= i < |w| ==> IsWordChar(w[i])
  }

  ghost predicate AreWords(words: seq<string>) {
    forall i :: 0 <= i < |words| ==> IsWord(words[i])
  }

  lemma {:induction false} WordsAreWords(s: string)
    ensures AreWords(Words(s))
  {
    if s != "" {
      WordsAreWords(s[..|s| - 1]);
    }
  }

  /** A dash if the text begins with another character. */
  ghost function Lead(s: string): string {
    if s != "" && !IsWordChar(s[0]) then "-" else ""
  }

  lemma JoinAppends(front: seq<string>, last: string)
    ensures Join(front + [last]) == Dashed(front) + last && Dashed(front + [last]) == Dashed(front) + last + "-"
  {
    assert (front + [last])[..|front|] == front;
  }

  lemma Associates(a: string, b: string, c: string)
    ensures a + (b + c) == (a + b) + c
  {}

  lemma WordGrows(front: seq<string>, last: string, c: char)
    ensures Join(front + [last + [c]]) == Join(front + [last]) + [c]
    ensures Dashed(front + [last]) == Join(front + [last]) + "-"
  {
    JoinAppends(front, last);
    JoinAppends(front, last + [c]);
    Associates(Dashed(front), last, [c]);
  }

  lemma WordBegins(words: seq<string>, c: char)
    ensures Join(words + [[c]]) == Dashed(words) + [c]
  {
    assert (words + [[c]])[..|words|] == words;
  }

  /** A collapsed text ends in a dash exactly when the text ends in another character. */
  lemma CollapseEnds(s: string)
    requires s != ""
    ensures Collapse(s) != "" && (Collapse(s)[|Collapse(s)| - 1] == '-' <==> !EndsInWord(s))
  {}

  /** What collapsing leaves: the joined words, with a dash where the text begins or ends in other characters. */
  ghost predicate IsCollapsed(collapsed: string, s: string) {
    var words := Words(s);
    if words == [] then collapsed == Lead(s)
    else if EndsInWord(s) then collapsed == Lead(s) + Join(words)
    else collapsed == Lead(s) + Dashed(words)
  }

  lemma AppendWordChar(collapsed: string, front: string, c: char)
    requires IsCollapsed(collapsed, front) && IsWordChar(c)
    ensures IsCollapsed(collapsed + [c], front + [c])
  {
    var s, words := front + [c], Words(front);
    assert s[..|s| - 1] == front;
    assert Lead(s) == Lead(front);
    if EndsInWord(front) {
      WordGrows(words[..|words| - 1], words[|words| - 1], c);
      assert words == words[..|words| - 1] + [words[|words| - 1]];
      assert collapsed + [c] == Lead(s) + (Join(words) + [c]);
    } else {
      WordBegins(words, c);
      assert collapsed + [c] == Lead(s) + (Dashed(words) + [c]);
    }
  }

  lemma AppendOther(collapsed: string, front: string, c: char)
    requires IsCollapsed(collapsed, front) && !IsWordChar(c)
    ensures IsCollapsed(if front == "" || EndsInWord(front) then collapsed + "-" else collapsed, front + [c])
  {
    var s, words := front + [c], Words(front);
    assert s[..|s| - 1] == front && !EndsInWord(s) && Words(s) == words;
    if EndsInWord(front) {
      WordGrows(words[..|words| - 1], words[|words| - 1], 'a');
      assert words == words[..|words| - 1] + [words[|words| - 1]];
      Associates(Lead(s), Join(words), "-");
    } else if front == "" {
      assert collapsed + "-" == "-";
    }
  }

  lemma {:induction false} CollapseJoins(s: string)
    ensures IsCollapsed(Collapse(s), s)
  {
    if s != "" {
      var front, c := s[..|s| - 1], s[|s| - 1];
      assert s == front + [c];
      CollapseJoins(front);
      if front != "" {
        CollapseEnds(front);
      }
      if IsWordChar(c) {
        AppendWordChar(Collapse(front), front, c);
      } else {
        AppendOther(Collapse(front), front, c);
      }
    }
  }

  lemma {:induction false} DashedStart(words: seq<string>)
    requires words != [] && AreWords(words)
    ensures Dashed(words) != "" && IsWordChar(Dashed(words)[0])
  {
    if |words| > 1 {
      DashedStart(words[..|words| - 1]);
    } else {
      assert IsWord(words[0]) && Dashed(words[..0]) == "";
    }
  }

  /** Joined words begin and end in a word. */
  lemma JoinIsBare(words: seq<string>)
    requires words != [] && AreWords(words)
    ensures Join(words) != "" && Join(words)[0] != '-' && Join(words)[|Join(words)| - 1] != '-'
  {
    var last := words[|words| - 1];
    assert IsWord(last) && IsWordChar(last[0]) && IsWordChar(last[|last| - 1]);
    if |words| > 1 {
      DashedStart(words[..|words| - 1]);
    }
  }

  lemma StripsToBare(bare: string, lead: string, trail: string)
    requires bare != "" && bare[0] != '-' && bare[|bare| - 1] != '-'
    requires (lead == "" || lead == "-") && (trail == "" || trail == "-")
    ensures StripRight(StripLeft(lead + bare + trail)) == bare
  {
    var tail := bare + trail;
    assert StripLeft(tail) == tail && StripRight(bare) == bare;
    if lead == "-" {
      assert (lead + bare + trail)[1..] == tail;
    } else {
      assert lead + bare + trail == tail;
    }
    if trail == "-" {
      assert tail[..|tail| - 1] == bare;
    } else {
      assert tail == bare;
    }
  }

  lemma CollapsedStrips(collapsed: string, lowered: string)
    requires IsCollapsed(collapsed, lowered) && Words(lowered) != [] && AreWords(Words(lowered))
    ensures StripRight(StripLeft(collapsed)) == Join(Words(lowered))
  {
    var words, lead := Words(lowered), Lead(lowered);
    var front, last := words[..|words| - 1], words[|words| - 1];
    JoinIsBare(words);
    assert words == front + [last];
    JoinAppends(front, last);
    if EndsInWord(lowered) {
      assert collapsed == lead + Join(words) + "";
      StripsToBare(Join(words), lead, "");
    } else {
      Associates(lead, Join(words), "-");
      StripsToBare(Join(words), lead, "-");
    }
  }

  /** The slug of any lower-case text: its words joined by single dashes, cut to 100 characters, or "service" without any. */
  lemma SlugifyJoins(lowered: string)
    ensures var joined := Join(Words(lowered));
            Slugify(lowered) == if Words(lowered) == [] then "service" else if |joined| <= 100 then joined else joined[..100]
  {
    CollapseJoins(lowered);
    WordsAreWords(lowered);
    if Words(lowered) == [] {
      assert StripLeft("-") == "" && StripLeft("") == "";
    } else {
      CollapsedStrips(Collapse(lowered), lowered);
      JoinIsBare(Words(lowered));
    }
  }
}
