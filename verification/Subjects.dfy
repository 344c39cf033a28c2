/** Subject lines: the normal form that names a thread, and the rewriting that replies and forwards do. */
module Subjects {

  /** The spaces trimmed from both ends of a subject (the Unicode White_Space property). */
  predicate IsSpace(c: char) {
    || '\U{0009}' <= c <= '\U{000D}' || c == ' ' || c == '\U{0085}' || c == '\U{00A0}'
    || c == '\U{1680}' || '\U{2000}' <= c <= '\U{200A}' || c == '\U{2028}' || c == '\U{2029}'
    || c == '\U{202F}' || c == '\U{205F}' || c == '\U{3000}'
  }

  function TrimLeft(s: string): string {
    if s != "" && IsSpace(s[0]) then TrimLeft(s[1..]) else s
  }

  function TrimRight(s: string): string {
    if s != "" && IsSpace(s[|s| - 1]) then TrimRight(s[..|s| - 1]) else s
  }

  function Trim(s: string): string {
    TrimRight(TrimLeft(s))
  }

  function LowerChar(c: char): char {
    if 'A' <= c <= 'Z' then c - 'A' + 'a' else c
  }

  function Lower(s: string): string {
    seq(|s|, i requires 0 <= i < |s| => LowerChar(s[i]))
  }

  const PREFIXES: seq<string> := ["re:", "fwd:", "fw:", "re :", "fwd :"]

  ghost predicate Prefixed(s: string) {
    exists i :: 0 <= i < |PREFIXES| && PREFIXES[i] <= s
  }

  /** Strips any reply or forward prefix, one at a time, until none is left. */
  ghost function Strip(s: string): string
    decreases |s|
  {
    if Prefixed(s) then
      var i :| 0 <= i < |PREFIXES| && PREFIXES[i] <= s;
      TrimShorter(s[|PREFIXES[i]|..]);
      Strip(Trim(s[|PREFIXES[i]|..]))
    else s
  }

  ghost function Normalized(subject: string): string {
    Strip(Lower(Trim(subject)))
  }

  method NormalizeSubject(subject: string) returns (s: string)
    ensures s == Normalized(subject)
  {
    s := Lower(Trim(subject));
    var changed := true;
    while changed
      invariant Strip(s) == Normalized(subject)
      invariant !changed ==> !Prefixed(s)
      decreases |s|, changed
    {
      changed := false;
      ghost var before := s;
      for i := 0 to |PREFIXES|
        invariant Strip(s) == Normalized(subject)
        invariant !changed ==> s == before && forall j :: 0 <= j < i ==> !(PREFIXES[j] <= s)
        invariant changed ==> |s| < |before|
      {
        var p := PREFIXES[i];
        if p <= s {
          StripStep(s, i);
          TrimShorter(s[|p|..]);
          s := Trim(s[|p|..]);
          changed := true;
        }
      }
    }
  }

  predicate IsReply(subject: string) {
    var s := Lower(Trim(subject));
    "re:" <= s || "re :" <= s
  }

  /** The subject of a reply to, or a forward of, a message with the given subject. */
  function ReplySubject(subject: string): string {
    if "re: " <= Lower(subject) then subject else "Re: " + subject
  }

  function ForwardSubject(subject: string): string {
    if "fwd: " <= Lower(subject) then subject else "Fwd: " + subject
  }

  datatype Rewrite = Reply | Forward

  /** The subject after a history of replies and forwards. */
  function Rewritten(subject: string, history: seq<Rewrite>): string {
    if history == [] then subject
    else
      var s := Rewritten(subject, history[..|history| - 1]);
      if history[|history| - 1].Reply? then ReplySubject(s) else ForwardSubject(s)
  }

  // ----- Facts about trimming and folding -----

  lemma TrimShorter(s: string)
    ensures |Trim(s)| <= |s|
  {
    TrimLeftShorter(s);
    TrimRightShorter(TrimLeft(s));
  }

  lemma TrimLeftShorter(s: string)
    ensures |TrimLeft(s)| <= |s|
  {}

  lemma TrimRightShorter(s: string)
    ensures |TrimRight(s)| <= |s|
  {}

  /** No two prefixes match the same subject, so the order they are tried in is irrelevant. */
  lemma OnePrefix(s: string, i: nat, j: nat)
    requires i < |PREFIXES| && j < |PREFIXES|
    requires PREFIXES[i] <= s && PREFIXES[j] <= s
    ensures i == j
  {
    var p, q := PREFIXES[i], PREFIXES[j];
    assert s[0] == p[0] == q[0] && s[1] == p[1] == q[1] && s[2] == p[2] == q[2];
    if |p| > 3 && |q| > 3 {
      assert s[3] == p[3] == q[3];
    }
  }

  lemma StripStep(s: string, i: nat)
    requires i < |PREFIXES| && PREFIXES[i] <= s
    ensures Strip(s) == Strip(Trim(s[|PREFIXES[i]|..]))
  {
    assert Prefixed(s);
    forall j | 0 <= j < |PREFIXES| && PREFIXES[j] <= s
      ensures j == i
    {
      OnePrefix(s, i, j);
    }
  }

  predicate Trimmed(s: string) {
    s == "" || (!IsSpace(s[0]) && !IsSpace(s[|s| - 1]))
  }

  lemma TrimLeftStart(s: string)
    ensures TrimLeft(s) == "" || !IsSpace(TrimLeft(s)[0])
  {}

  lemma TrimRightPrefix(s: string)
    ensures TrimRight(s) <= s
    ensures TrimRight(s) == "" || !IsSpace(TrimRight(s)[|TrimRight(s)| - 1])
  {}

  lemma TrimTrims(s: string)
    ensures Trimmed(Trim(s))
  {
    TrimLeftStart(s);
    TrimRightPrefix(TrimLeft(s));
  }

  lemma LowerTrimLeft(s: string)
    ensures TrimLeft(Lower(s)) == Lower(TrimLeft(s))
  {
    if s != "" && IsSpace(s[0]) {
      assert Lower(s)[1..] == Lower(s[1..]);
      LowerTrimLeft(s[1..]);
    }
  }

  lemma LowerTrimRight(s: string)
    ensures TrimRight(Lower(s)) == Lower(TrimRight(s))
  {
    if s != "" && IsSpace(s[|s| - 1]) {
      assert Lower(s)[..|s| - 1] == Lower(s[..|s| - 1]);
      LowerTrimRight(s[..|s| - 1]);
    }
  }

  lemma LowerTrim(s: string)
    ensures Trim(Lower(s)) == Lower(Trim(s))
  {
    LowerTrimLeft(s);
    LowerTrimRight(TrimLeft(s));
  }

  lemma TrimRightAppend(a: string, b: string)
    ensures TrimRight(a + b) == if TrimRight(b) == "" then TrimRight(a) else a + TrimRight(b)
    decreases |b|
  {
    if b == "" {
      assert a + b == a;
    } else if IsSpace(b[|b| - 1]) {
      assert (a + b)[..|a + b| - 1] == a + b[..|b| - 1];
      TrimRightAppend(a, b[..|b| - 1]);
    }
  }

  /** Trimming one end first or the other makes no difference. */
  lemma TrimEitherEnd(s: string)
    ensures TrimLeft(TrimRight(s)) == Trim(s)
  {
    if s == "" {
    } else if IsSpace(s[0]) {
      assert s == [s[0]] + s[1..];
      TrimRightAppend([s[0]], s[1..]);
      if TrimRight(s[1..]) != "" {
        assert ([s[0]] + TrimRight(s[1..]))[1..] == TrimRight(s[1..]);
      } else {
        assert TrimRight([s[0]]) == TrimRight([]) == "";
      }
      TrimEitherEnd(s[1..]);
    } else {
      assert s == [s[0]] + s[1..];
      TrimRightAppend([s[0]], s[1..]);
    }
  }

  // ----- The normal form -----

  lemma {:induction false} StripIsNormal(s: string)
    requires Trimmed(s) && Lower(s) == s
    ensures !Prefixed(Strip(s)) && Trimmed(Strip(s)) && Lower(Strip(s)) == Strip(s)
    decreases |s|
  {
    if Prefixed(s) {
      var i :| 0 <= i < |PREFIXES| && PREFIXES[i] <= s;
      var rest := s[|PREFIXES[i]|..];
      assert Lower(rest) == rest by {
        assert Lower(rest) == Lower(s)[|PREFIXES[i]|..];
      }
      LowerTrim(rest);
      TrimTrims(rest);
      TrimShorter(rest);
      StripStep(s, i);
      StripIsNormal(Trim(rest));
    }
  }

  /** A normal form is lower case, trimmed and bare of prefixes, and normalising it again changes nothing. */
  lemma NormalizedIsNormal(subject: string)
    ensures var n := Normalized(subject);
            && (forall prefix <- ["re:", "fwd:", "fw:", "re :", "fwd :"] :: !(prefix <= n))
            && (n != "" ==> n[0] !in " \t\r\n" && n[|n| - 1] !in " \t\r\n")
            && (forall c <- n :: !('A' <= c <= 'Z'))
            && !Prefixed(n) && Trimmed(n) && Lower(n) == n && Normalized(n) == n && !IsReply(n)
  {
    var s := Lower(Trim(subject));
    TrimTrims(subject);
    assert Lower(s) == s;
    StripIsNormal(s);
    var n := Normalized(subject);
    Bare(n);
  }

  /** What is folded, trimmed and without a prefix has none of the marks, no outer space and no capital. */
  lemma Bare(n: string)
    requires !Prefixed(n) && Trimmed(n) && Lower(n) == n
    ensures forall prefix <- ["re:", "fwd:", "fw:", "re :", "fwd :"] :: !(prefix <= n)
    ensures n != "" ==> n[0] !in " \t\r\n" && n[|n| - 1] !in " \t\r\n"
    ensures forall c <- n :: !('A' <= c <= 'Z')
    ensures Trim(n) == n && !IsReply(n)
  {
    assert TrimLeft(n) == n && TrimRight(n) == n;
    assert forall i :: 0 <= i < |n| ==> n[i] == Lower(n)[i];
    assert PREFIXES[0] == "re:" && PREFIXES[1] == "fwd:" && PREFIXES[2] == "fw:" && PREFIXES[3] == "re :"
           && PREFIXES[4] == "fwd :";
  }

  /** Trimming a word and a subject trims only the end of the subject, or leaves the word alone. */
  lemma TrimAfterWord(word: string, subject: string)
    requires word != "" && !IsSpace(word[0]) && !IsSpace(word[|word| - 1])
    ensures Trim(word + subject) == word + TrimRight(subject)
  {
    var s := word + subject;
    assert s[0] == word[0] && TrimLeft(s) == s;
    TrimRightAppend(word, subject);
  }

  /** A prefix in front of a subject, in any case and with or without space after it, leaves its normal form. */
  lemma PrefixIsTransparent(word: string, subject: string)
    requires Lower(word) in ["re:", "fwd:", "fw:", "re :", "fwd :"]
    ensures Normalized(word + subject) == Normalized(subject)
  {
    hide Strip;
    var prefix, body := Lower(word), TrimRight(subject);
    var i :| 0 <= i < |PREFIXES| && PREFIXES[i] == prefix;
    assert !IsSpace(Lower(word)[0]) && !IsSpace(Lower(word)[|word| - 1]);
    TrimAfterWord(word, subject);
    TrimIsStable(subject);
    var folded := prefix + Lower(body);
    assert Lower(word + body) == folded;
    StripStep(folded, i);
    assert folded[|prefix|..] == Lower(body);
    LowerTrim(body);
  }

  /** A subject is a reply by its first mark: behind one of a reply it is one, behind one of a forward it is not. */
  lemma MarkDecides(word: string, subject: string)
    requires Lower(word) in ["re:", "fwd:", "fw:", "re :", "fwd :"]
    ensures IsReply(word + subject) <==> Lower(word) in ["re:", "re :"]
  {
    assert !IsSpace(Lower(word)[0]) && !IsSpace(Lower(word)[|word| - 1]);
    TrimAfterWord(word, subject);
    var s := Lower(Trim(word + subject));
    assert s == Lower(word) + Lower(TrimRight(subject));
    assert s[0] == Lower(word)[0] && s[1] == Lower(word)[1] && s[2] == Lower(word)[2];
  }

  /** What a reply or a forward is called: by the old subject if that is marked so already, else behind the mark. */
  lemma RewritingMarks(subject: string)
    ensures var reply, forward := ReplySubject(subject), ForwardSubject(subject);
            && "re: " <= Lower(reply) && "fwd: " <= Lower(forward)
            && (reply == subject || reply == "Re: " + subject)
            && (forward == subject || forward == "Fwd: " + subject)
            && ReplySubject(reply) == reply && ForwardSubject(forward) == forward
  {
    assert "Re: "[0] == 'R' && Lower("Re: ") == "re: " && Lower("Fwd: ") == "fwd: ";
    assert Lower("Re: " + subject) == "re: " + Lower(subject);
    assert Lower("Fwd: " + subject) == "fwd: " + Lower(subject);
  }

  lemma TrimIsStable(s: string)
    ensures Trim(TrimRight(s)) == Trim(s)
  {
    TrimRightPrefix(s);
    assert TrimRight(TrimRight(s)) == TrimRight(s);
    TrimEitherEnd(TrimRight(s));
    TrimEitherEnd(s);
  }

  lemma OneRewriting(subject: string)
    ensures Normalized(ReplySubject(subject)) == Normalized(subject)
    ensures Normalized(ForwardSubject(subject)) == Normalized(subject)
  {
    hide Normalized;
    SpaceIsTransparent(subject);
    assert Lower("Re:") == "re:" && Lower("Fwd:") == "fwd:";
    hide Lower;
    PrefixIsTransparent("Re:", " " + subject);
    PrefixIsTransparent("Fwd:", " " + subject);
    assert "Re: " + subject == "Re:" + (" " + subject) && "Fwd: " + subject == "Fwd:" + (" " + subject);
  }

  lemma SpaceIsTransparent(subject: string)
    ensures Normalized(" " + subject) == Normalized(subject)
  {
    assert (" " + subject)[1..] == subject && Trim(" " + subject) == Trim(subject);
  }

  /** Any history of replies and forwards leaves the subject's normal form unchanged. */
  lemma {:induction false} RewritingKeepsNormalForm(subject: string, history: seq<Rewrite>)
    ensures Normalized(Rewritten(subject, history)) == Normalized(subject)
  {
    hide Normalized, ReplySubject, ForwardSubject;
    if history != [] {
      var earlier := history[..|history| - 1];
      RewritingKeepsNormalForm(subject, earlier);
      OneRewriting(Rewritten(subject, earlier));
    }
  }
}
