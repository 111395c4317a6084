/**
 When two emails share a sender and subject (improve.go, `senderSubjectKey`).
 */
module SenderSubject {
  // Keys trim and fold both fields and put a NUL between them. `SameKeyExactly` says what that
  // means: equal senders and equal subjects, up to case and to whitespace around them.

  predicate IsSpace(c: char) {
    c == ' ' || '\t' <= c <= '\r'
  }

  function Trim(s: string): string {
    if s != [] && IsSpace(s[0]) then Trim(s[1..])
    else if s != [] && IsSpace(s[|s| - 1]) then Trim(s[..|s| - 1])
    else s
  }

  function Fold(s: string): string {
    seq(|s|, i requires 0 <= i < |s| => if 'A' <= s[i] <= 'Z' then s[i] - 'A' + 'a' else s[i])
  }

  function SenderSubjectKey(sender: string, subject: string): string {
    Fold(Trim(sender)) + ['\0'] + Fold(Trim(subject))
  }

  // ---------------------------------------------------------------- equal up to case and whitespace

  /** Space, tab, line feed, vertical tab, form feed, carriage return. */
  predicate Blank(c: char) {
    c as int == 32 || c as int == 9 || c as int == 10 || c as int == 11 || c as int == 12 || c as int == 13
  }

  /** All of `s` outside i and j is blank, and what is between begins and ends otherwise. */
  ghost predicate IsCore(s: string, i: nat, j: nat) {
    && i <= j <= |s|
    && (forall k | 0 <= k < i || j <= k < |s| :: Blank(s[k]))
    && (i < j ==> !Blank(s[i]) && !Blank(s[j - 1]))
  }

  predicate SameLetter(c: char, d: char) {
    || c == d
    || (65 <= c as int <= 90 && d as int == c as int + 32)
    || (65 <= d as int <= 90 && c as int == d as int + 32)
  }

  predicate SameLetters(x: string, y: string) {
    |x| == |y| && forall k | 0 <= k < |x| :: SameLetter(x[k], y[k])
  }

  ghost predicate SameText(a: string, b: string) {
    exists i: nat, j: nat, k: nat, l: nat | IsCore(a, i, j) && IsCore(b, k, l) :: SameLetters(a[i..j], b[k..l])
  }

  lemma BlankBefore(s: string, i: nat, j: nat)
    requires s != [] && Blank(s[0]) && IsCore(s[1..], i, j)
    ensures IsCore(s, i + 1, j + 1) && s[1..][i..j] == s[i + 1..j + 1]
  {
    assert forall k | 0 < k < |s| :: s[k] == s[1..][k - 1];
  }

  lemma BlankBehind(s: string, i: nat, j: nat)
    requires s != [] && Blank(s[|s| - 1]) && IsCore(s[..|s| - 1], i, j)
    ensures IsCore(s, i, j) && s[..|s| - 1][i..j] == s[i..j]
  {
    assert forall k | 0 <= k < |s| - 1 :: s[k] == s[..|s| - 1][k];
  }

  lemma {:induction false} TrimIsCore(s: string) returns (i: nat, j: nat)
    ensures IsCore(s, i, j) && Trim(s) == s[i..j]
    decreases |s|
  {
    if s != [] && IsSpace(s[0]) {
      i, j := TrimIsCore(s[1..]);
      BlankBefore(s, i, j);
      i, j := i + 1, j + 1;
    } else if s != [] && IsSpace(s[|s| - 1]) {
      i, j := TrimIsCore(s[..|s| - 1]);
      BlankBehind(s, i, j);
    } else {
      i, j := 0, |s|;
    }
  }

  lemma OneCore(s: string, i: nat, j: nat, k: nat, l: nat)
    requires IsCore(s, i, j) && IsCore(s, k, l)
    ensures s[i..j] == s[k..l]
  {
    if i < j {
      assert k <= i && j <= l;
    }
    if k < l {
      assert i <= k && l <= j;
    }
  }

  lemma FoldSame(x: string, y: string)
    ensures Fold(x) == Fold(y) <==> SameLetters(x, y)
  {
    if Fold(x) == Fold(y) {
      forall k | 0 <= k < |x| ensures SameLetter(x[k], y[k]) {
        assert Fold(x)[k] == Fold(y)[k];
      }
    }
    if SameLetters(x, y) {
      forall k | 0 <= k < |x| ensures Fold(x)[k] == Fold(y)[k] {
        assert SameLetter(x[k], y[k]);
      }
    }
  }

  lemma FieldSame(a: string, b: string)
    ensures Fold(Trim(a)) == Fold(Trim(b)) <==> SameText(a, b)
  {
    var i, j := TrimIsCore(a);
    var k, l := TrimIsCore(b);
    FoldSame(Trim(a), Trim(b));
    if SameText(a, b) {
      var i': nat, j': nat, k': nat, l': nat :|
        IsCore(a, i', j') && IsCore(b, k', l') && SameLetters(a[i'..j'], b[k'..l']);
      OneCore(a, i, j, i', j');
      OneCore(b, k, l, k', l');
    }
  }

  // ---------------------------------------------------------------- keys

  predicate NoNul(s: string) {
    forall k | 0 <= k < |s| :: s[k] != '\0'
  }

  lemma FieldNoNul(s: string)
    requires NoNul(s)
    ensures NoNul(Fold(Trim(s)))
  {
    var i, j := TrimIsCore(s);
    forall k | 0 <= k < |Trim(s)| ensures Fold(Trim(s))[k] != '\0' {
      assert Trim(s)[k] == s[i + k];
    }
  }

  lemma FirstNul(x: string, xs: string, y: string, ys: string)
    requires NoNul(x) && NoNul(y) && x + ['\0'] + xs == y + ['\0'] + ys
    ensures x == y && xs == ys
  {
    var z := x + ['\0'] + xs;
    assert z[|x|] == '\0' && z[|y|] == '\0';
    assert forall k | 0 <= k < |x| :: z[k] == x[k];
    assert forall k | 0 <= k < |y| :: z[k] == y[k];
    assert |x| == |y|;
    assert x == z[..|x|] && y == z[..|y|];
    assert xs == z[|x| + 1..] && ys == z[|y| + 1..];
  }

  /** Senders hold no NUL; for such, keys are equal exactly when the senders are the same up to case
      and surrounding whitespace, and so are the subjects. */
  lemma SameKeyExactly(sender: string, subject: string, sender': string, subject': string)
    requires NoNul(sender) && NoNul(sender')
    ensures SenderSubjectKey(sender, subject) == SenderSubjectKey(sender', subject')
            <==> SameText(sender, sender') && SameText(subject, subject')
  {
    FieldSame(sender, sender');
    FieldSame(subject, subject');
    FieldNoNul(sender);
    FieldNoNul(sender');
    if SenderSubjectKey(sender, subject) == SenderSubjectKey(sender', subject') {
      FirstNul(Fold(Trim(sender)), Fold(Trim(subject)), Fold(Trim(sender')), Fold(Trim(subject')));
    }
  }
}
