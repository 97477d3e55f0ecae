/** extractNameFromEmail (lib/integrations/gmail.ts): split a From header into a display
    name and an address. The regular expression

        ^"?([^"<]+)"?\s*<?([^>]+@[^>]+)>?$

    is modelled by the order in which a backtracking matcher tries its alternatives:
    greedy quantifiers try the longest run first, `?` tries the character first, and the
    first complete match fixes both groups. When it does not match, a fallback builds the
    name from the local part of the address. */
module SenderParsing {
  import opened Wrappers
  import opened Text

  // ---------------------------------------------------------------- the tail

  /** `[^>]+@[^>]+`: no `>`, and an `@` with at least one character on each side. */
  predicate AddressLike(x: string) {
    '>' !in x && exists k :: 1 <= k < |x| - 1 && x[k] == '@'
  }

  /** `([^>]+@[^>]+)>?$` on the rest of the input: group 2, if it matches. */
  function TailGroup(r: string): Option<string> {
    if AddressLike(r) then Some(r)
    else if |r| > 0 && r[|r| - 1] == '>' && AddressLike(r[..|r| - 1]) then Some(r[..|r| - 1])
    else None
  }

  /** `<?` followed by the tail: with the bracket first, then without. */
  function AfterSpaces(r: string): Option<string> {
    if |r| > 0 && r[0] == '<' && TailGroup(r[1..]).Some? then TailGroup(r[1..]) else TailGroup(r)
  }

  /** The number of leading whitespace characters. */
  function LeadingSpaces(r: string): (n: nat)
    ensures n <= |r|
    ensures forall i :: 0 <= i < n ==> IsSpace(r[i])
  {
    if |r| > 0 && IsSpace(r[0]) then 1 + LeadingSpaces(r[1..]) else 0
  }

  /** `\s*` then the rest, trying w, w - 1, ..., 0 spaces. */
  function SpacesThen(r: string, w: nat): Option<string>
    requires w <= |r|
  {
    var t := AfterSpaces(r[w..]);
    if t.Some? || w == 0 then t else SpacesThen(r, w - 1)
  }

  /** The optional closing quote after group 1, then `\s*` and the rest. */
  function AfterGroup1(r: string): Option<string> {
    var withQuote :=
      if |r| > 0 && r[0] == '"' then SpacesThen(r[1..], LeadingSpaces(r[1..])) else None;
    if withQuote.Some? then withQuote else SpacesThen(r, LeadingSpaces(r))
  }

  /** Group 1 = s[start..e] for e = hi, hi - 1, ..., start + 1: the first end that lets
      the rest match. */
  function SearchGroup1(s: string, start: nat, e: nat): Option<(string, string)>
    requires start < e <= |s|
    decreases e
  {
    var g2 := AfterGroup1(s[e..]);
    if g2.Some? then Some((s[start..e], g2.value))
    else if e == start + 1 then None
    else SearchGroup1(s, start, e - 1)
  }

  /** The end of the longest run of characters other than `"` and `<` from `start`. */
  function RunEnd(s: string, start: nat): (e: nat)
    requires start <= |s|
    ensures start <= e <= |s|
    ensures forall i :: start <= i < e ==> s[i] != '"' && s[i] != '<'
    ensures e < |s| ==> s[e] == '"' || s[e] == '<'
    decreases |s| - start
  {
    if start == |s| || s[start] == '"' || s[start] == '<' then start else RunEnd(s, start + 1)
  }

  /** The two groups of the regular expression, or None when it does not match. An opening
      quote is taken when present; without it group 1 could not start at a quote anyway. */
  function RegexGroups(s: string): Option<(string, string)> {
    var start := if |s| > 0 && s[0] == '"' then 1 else 0;
    var hi := RunEnd(s, start);
    if hi == start then None else SearchGroup1(s, start, hi)
  }

  // ---------------------------------------------------------------- the fallback

  /** .replace(/[<>]/g, "") */
  function DropBrackets(s: string): (r: string)
    ensures '<' !in r && '>' !in r
    ensures |r| <= |s|
  {
    if |s| == 0 then []
    else if s[0] == '<' || s[0] == '>' then DropBrackets(s[1..])
    else [s[0]] + DropBrackets(s[1..])
  }

  /** .replace(/[._-]/g, " ") */
  function DotsToSpaces(s: string): (r: string)
    ensures |r| == |s|
  {
    seq(|s|, i requires 0 <= i < |s| => if s[i] in {'.', '_', '-'} then ' ' else s[i])
  }

  /** w.charAt(0).toUpperCase() + w.slice(1) */
  function Capitalize(w: string): string {
    if |w| == 0 then "" else [UpperChar(w[0])] + w[1..]
  }

  function CapitalizeAll(ws: seq<string>): (r: seq<string>)
    ensures |r| == |ws|
    ensures forall i :: 0 <= i < |ws| ==> r[i] == Capitalize(ws[i])
  {
    if |ws| == 0 then [] else [Capitalize(ws[0])] + CapitalizeAll(ws[1..])
  }

  datatype Sender = Sender(name: string, email: string)

  /** The fallback: strip the brackets from the lowered, trimmed header; the name is the
      local part with `.`, `_`, `-` turned into spaces and each word capitalised. */
  function Fallback(s: string): (r: Sender)
    ensures r.email == DropBrackets(Lower(Trim(s)))
  {
    var email := DropBrackets(Lower(Trim(s)));
    var namePart := DotsToSpaces(Split(email, '@')[0]);
    Sender(Join(CapitalizeAll(Split(namePart, ' ')), " "), email)
  }

  /** extractNameFromEmail */
  function ExtractNameFromEmail(s: string): (r: Sender)
    ensures RegexGroups(s).Some? ==>
              r == Sender(Trim(RegexGroups(s).value.0), Lower(Trim(RegexGroups(s).value.1)))
    ensures RegexGroups(s).None? ==> r == Fallback(s)
  {
    match RegexGroups(s)
    case Some(groups) => Sender(Trim(groups.0), Lower(Trim(groups.1)))
    case None => Fallback(s)
  }

  // ---------------------------------------------------------------- properties

  /** After group 1, `<address>` matches with the bracket taken. */
  lemma BracketedRest(address: string)
    requires AddressLike(address)
    ensures AfterGroup1("<" + address + ">") == Some(address)
  {
    var r := "<" + address + ">";
    assert r[1..] == address + ">";
    assert (address + ">")[..|address|] == address;
    assert !AddressLike(address + ">") by { assert (address + ">")[|address|] == '>'; }
    assert TailGroup(r[1..]) == Some(address);
    assert LeadingSpaces(r) == 0;
    assert r[0..] == r;
  }

  /** `Name <local@domain>`: the regular expression takes group 1 = Name (the whole run
      before `<`) and group 2 = the address. */
  lemma DisplayGroups(name: string, address: string)
    requires |name| > 0 && '"' !in name && '<' !in name
    requires AddressLike(address)
    ensures RegexGroups(name + "<" + address + ">") == Some((name, address))
  {
    var s := name + "<" + address + ">";
    assert s[0] == name[0];
    assert s[|name|] == '<';
    assert forall i :: 0 <= i < |name| ==> s[i] == name[i];
    RunEndStops(s, 0, |name|);
    assert s[|name|..] == "<" + address + ">";
    BracketedRest(address);
    assert s[..|name|] == name;
  }

  /** `Name <local@domain>`: the trimmed name and the lowered, trimmed address. */
  lemma DisplayForm(name: string, address: string)
    requires |name| > 0 && '"' !in name && '<' !in name
    requires AddressLike(address)
    ensures ExtractNameFromEmail(name + "<" + address + ">") == Sender(Trim(name), Lower(Trim(address)))
  {
    DisplayGroups(name, address);
  }

  lemma {:induction false} RunEndStops(s: string, start: nat, e: nat)
    requires start <= e < |s|
    requires forall i :: start <= i < e ==> s[i] != '"' && s[i] != '<'
    requires s[e] == '"' || s[e] == '<'
    ensures RunEnd(s, start) == e
    decreases e - start
  {
    if start < e { RunEndStops(s, start + 1, e); }
  }

  lemma {:induction false} RunEndAll(s: string, start: nat)
    requires start <= |s|
    requires forall i :: start <= i < |s| ==> s[i] != '"' && s[i] != '<'
    ensures RunEnd(s, start) == |s|
    decreases |s| - start
  {
    if start < |s| { RunEndAll(s, start + 1); }
  }

  /** A plain header: no quotes, brackets or spaces, and exactly one `@`, at position n. */
  predicate PlainAddress(s: string, n: nat) {
    n < |s| && s[n] == '@'
    && (forall i :: 0 <= i < |s| && i != n ==> s[i] != '@')
    && forall i :: 0 <= i < |s| ==> s[i] != '"' && s[i] != '<' && s[i] != '>' && !IsSpace(s[i])
  }

  /** An end at or past the `@` leaves a rest without an interior `@`: no match there. */
  lemma NoMatchPastAt(s: string, e: nat, n: nat)
    requires PlainAddress(s, n) && n <= e <= |s|
    ensures AfterGroup1(s[e..]) == None
  {
    var r := s[e..];
    assert forall i :: 0 <= i < |r| ==> r[i] == s[e + i];
    assert LeadingSpaces(r) == 0;
    assert !AddressLike(r);
    if |r| > 0 {
      assert r[|r| - 1] != '>';
      assert r[0] != '<' && r[0] != '"';
    }
    assert r[0..] == r;
  }

  lemma {:induction false} SkipLongEnds(s: string, e: nat, n: nat)
    requires PlainAddress(s, n) && 2 <= n <= e <= |s|
    ensures SearchGroup1(s, 0, e) == SearchGroup1(s, 0, n - 1)
    decreases e
  {
    NoMatchPastAt(s, e, n);
    SearchStep(s, 0, e);
    if e > n { SkipLongEnds(s, e - 1, n); }
  }

  /** With the local part's last character in front of the `@`, the rest matches. */
  lemma MatchAtLastLocalChar(s: string, n: nat)
    requires PlainAddress(s, n) && 2 <= n && n + 1 < |s|
    ensures AfterGroup1(s[n - 1..]) == Some(s[n - 1..])
  {
    var r := s[n - 1..];
    assert forall i :: 0 <= i < |r| ==> r[i] == s[n - 1 + i];
    assert AddressLike(r) by { assert r[1] == '@'; }
    assert LeadingSpaces(r) == 0;
    assert r[0..] == r;
  }

  /** No quotes, angle brackets, `@` or whitespace. */
  predicate PlainPart(x: string) {
    forall i :: 0 <= i < |x| ==> x[i] != '"' && x[i] != '<' && x[i] != '>' && x[i] != '@' && !IsSpace(x[i])
  }

  /** A bare `local@domain` also matches: group 1 takes all of the local part but its last
      character, which group 2 keeps. */
  lemma BareGroups(local: string, domain: string)
    requires |local| >= 2 && |domain| >= 1 && PlainPart(local) && PlainPart(domain)
    ensures RegexGroups(local + "@" + domain) == Some((local[..|local| - 1], [local[|local| - 1]] + "@" + domain))
  {
    var s := local + "@" + domain;
    var n := |local|;
    assert forall i :: 0 <= i < n ==> s[i] == local[i];
    assert forall i :: n < i < |s| ==> s[i] == domain[i - n - 1];
    assert PlainAddress(s, n);
    RunEndAll(s, 0);
    SkipLongEnds(s, |s|, n);
    MatchAtLastLocalChar(s, n);
    assert s[..n - 1] == local[..n - 1];
    assert s[n - 1..] == [local[n - 1]] + "@" + domain;
  }

  /** So "john@example.com" gives the name "joh" and the address "n@example.com", and the
      fallback never sees a bare address. */
  lemma BareAddress(local: string, domain: string)
    requires |local| >= 2 && |domain| >= 1 && PlainPart(local) && PlainPart(domain)
    ensures ExtractNameFromEmail(local + "@" + domain)
         == Sender(local[..|local| - 1], Lower([local[|local| - 1]] + "@" + domain))
  {
    BareGroups(local, domain);
    BareTrims(local, domain);
  }

  lemma BareTrims(local: string, domain: string)
    requires |local| >= 2 && PlainPart(local) && PlainPart(domain)
    ensures Trim(local[..|local| - 1]) == local[..|local| - 1]
    ensures Trim([local[|local| - 1]] + "@" + domain) == [local[|local| - 1]] + "@" + domain
  {
    NameTrim(local);
    AddressTrim(local[|local| - 1], domain);
  }

  lemma NameTrim(local: string)
    requires |local| >= 2 && PlainPart(local)
    ensures Trim(local[..|local| - 1]) == local[..|local| - 1]
  {
    TrimNoSpace(local[..|local| - 1]);
  }

  lemma AddressTrim(c: char, domain: string)
    requires !IsSpace(c) && PlainPart(domain)
    ensures Trim([c] + "@" + domain) == [c] + "@" + domain
  {
    var address := [c] + "@" + domain;
    assert forall i :: 2 <= i < |address| ==> address[i] == domain[i - 2];
    TrimNoSpace(address);
  }

  /** A header that opens with `<` cannot match (group 1 needs a character first), so the
      fallback handles it. */
  lemma LeadingBracketFallsBack(s: string)
    requires |s| > 0 && s[0] == '<'
    ensures ExtractNameFromEmail(s) == Fallback(s)
  {
  }

  /** Without an `@` the regular expression cannot match, so the fallback handles it. */
  lemma NoAtFallsBack(s: string)
    requires '@' !in s
    ensures ExtractNameFromEmail(s) == Fallback(s)
  {
    var start := if |s| > 0 && s[0] == '"' then 1 else 0;
    var hi := RunEnd(s, start);
    if hi > start {
      NoAtSearch(s, start, hi);
    }
  }

  lemma NoAtTail(r: string)
    requires '@' !in r
    ensures TailGroup(r) == None
  {
    if |r| > 0 {
      assert forall i :: 0 <= i < |r| - 1 ==> r[..|r| - 1][i] == r[i];
    }
  }

  lemma NoAtAfterSpaces(r: string)
    requires '@' !in r
    ensures AfterSpaces(r) == None
  {
    NoAtTail(r);
    if |r| > 0 {
      assert forall i :: 0 <= i < |r| - 1 ==> r[1..][i] == r[i + 1];
      NoAtTail(r[1..]);
    }
  }

  lemma {:induction false} NoAtSpaces(r: string, w: nat)
    requires '@' !in r && w <= |r|
    ensures SpacesThen(r, w) == None
    decreases w
  {
    assert forall i :: 0 <= i < |r| - w ==> r[w..][i] == r[w + i];
    NoAtAfterSpaces(r[w..]);
    if w > 0 { NoAtSpaces(r, w - 1); }
  }

  lemma NoAtRest(r: string)
    requires '@' !in r
    ensures AfterGroup1(r) == None
  {
    NoAtSpaces(r, LeadingSpaces(r));
    if |r| > 0 && r[0] == '"' {
      assert forall i :: 0 <= i < |r| - 1 ==> r[1..][i] == r[i + 1];
      NoAtSpaces(r[1..], LeadingSpaces(r[1..]));
    }
  }

  lemma {:induction false} NoAtSearch(s: string, start: nat, e: nat)
    requires '@' !in s && start < e <= |s|
    ensures SearchGroup1(s, start, e) == None
    decreases e
  {
    NoAtRestAt(s, e);
    SearchStep(s, start, e);
    if e > start + 1 { NoAtSearch(s, start, e - 1); }
  }

  lemma NoAtRestAt(s: string, e: nat)
    requires '@' !in s && e <= |s|
    ensures AfterGroup1(s[e..]) == None
  {
    assert forall c :: c in s[e..] ==> c in s;
    NoAtRest(s[e..]);
  }

  /** An end whose rest does not match hands over to the next shorter group 1. */
  lemma SearchStep(s: string, start: nat, e: nat)
    requires start < e <= |s| && AfterGroup1(s[e..]).None?
    ensures e == start + 1 ==> SearchGroup1(s, start, e) == None
    ensures e > start + 1 ==> SearchGroup1(s, start, e) == SearchGroup1(s, start, e - 1)
  {
  }

  /** The fallback's address carries no angle brackets and no capital letters. */
  lemma FallbackAddress(s: string)
    ensures '<' !in Fallback(s).email && '>' !in Fallback(s).email
    ensures forall c :: c in Fallback(s).email ==> !('A' <= c <= 'Z')
  {
    DropKeeps(Lower(Trim(s)));
  }

  lemma {:induction false} DropKeeps(s: string)
    ensures forall c :: c in DropBrackets(s) ==> c in s
  {
    if |s| > 0 {
      DropKeeps(s[1..]);
      assert forall c :: c in s[1..] ==> c in s;
    }
  }

  /** The first piece of a split is everything before the first separator. */
  lemma {:induction false} SplitBefore(a: string, b: string, d: char)
    requires d !in a
    ensures Split(a + [d] + b, d)[0] == a
    decreases |a|
  {
    if |a| == 0 {
      assert a + [d] + b == [d] + b;
    } else {
      assert (a + [d] + b)[1..] == a[1..] + [d] + b;
      assert d !in a[1..] by { assert forall i :: 0 <= i < |a| - 1 ==> a[1..][i] == a[i + 1]; }
      SplitBefore(a[1..], b, d);
      assert a == [a[0]] + a[1..];
    }
  }
}
