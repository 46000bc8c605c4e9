/** The canonical request of AWS Signature Version 4, and the string that is signed. */
module CanonicalRequest {
  import opened Types
  import Sorting
  import opened Strings
  import opened CanonicalQuery
  import opened Authorization

  /**
   The parts of an HTTP request that are signed. Header names are looked up in lower case; a value
   is None when it is not visible ASCII text.
   */
  datatype Request = Request(
    verb: string,
    path: string,
    query: string,
    headers: map<string, Option<string>>)

  function LowerChar(c: char): char {
    if 'A' <= c <= 'Z' then (c as int + 32) as char else c
  }

  /** ASCII letters in lower case, everything else as it is. */
  function Lower(s: string): (r: string)
    ensures |r| == |s|
    ensures forall i :: 0 <= i < |r| && 'A' <= s[i] <= 'Z' ==> r[i] as int - s[i] as int == 'a' as int - 'A' as int
    ensures forall i :: 0 <= i < |r| && !('A' <= s[i] <= 'Z') ==> r[i] == s[i]
  {
    seq(|s|, i requires 0 <= i < |s| => LowerChar(s[i]))
  }

  /** The trimmed text of a header, if the request has it. */
  function HeaderText(headers: map<string, Option<string>>, name: string): Option<string> {
    if Lower(name) !in headers then None
    else
      match headers[Lower(name)]
      case None => None
      case Some(value) => Some(Trim(value))
  }

  /** Name and trimmed value of each signed header that the request has as text, in signing order. */
  function HeaderLines(headers: map<string, Option<string>>, signed: seq<string>): seq<(string, string)> {
    if signed == [] then []
    else
      var last := signed[|signed| - 1];
      HeaderLines(headers, signed[..|signed| - 1])
      + (match HeaderText(headers, last) case Some(v) => [(last, v)] case None => [])
  }

  function ShowLine(line: (string, string)): string {
    line.0 + ":" + line.1
  }

  function ShowLines(lines: seq<(string, string)>): string {
    if lines == [] then "" else ShowLines(lines[..|lines| - 1]) + ShowLine(lines[|lines| - 1]) + "\n"
  }

  /** The indices, in order, of all the signed names that the request has as text. */
  ghost predicate Selected(headers: map<string, Option<string>>, signed: seq<string>, ks: seq<nat>) {
    && (forall i, j :: 0 <= i < j < |ks| ==> ks[i] < ks[j])
    && (forall k :: k in ks <==> 0 <= k < |signed| && Lower(signed[k]) in headers && headers[Lower(signed[k])].Some?)
  }

  /** One line a selected name, in signing order: the name as it was signed, a colon, the trimmed value. */
  lemma {:induction false} LinesExactly(headers: map<string, Option<string>>, signed: seq<string>) returns (ks: seq<nat>)
    ensures Selected(headers, signed, ks) && |HeaderLines(headers, signed)| == |ks|
    ensures forall i :: 0 <= i < |ks| ==>
              && ks[i] < |signed| && Lower(signed[ks[i]]) in headers && headers[Lower(signed[ks[i]])].Some?
              && HeaderLines(headers, signed)[i] == (signed[ks[i]], Trim(headers[Lower(signed[ks[i]])].value))
  {
    ks := [];
    if signed != [] {
      var init, last := signed[..|signed| - 1], signed[|signed| - 1];
      var before := LinesExactly(headers, init);
      ks := before;
      forall i | 0 <= i < |before| ensures before[i] < |init| {
        assert before[i] in before;
      }
      if Lower(last) in headers && headers[Lower(last)].Some? {
        ks := before + [|init|];
      }
      forall k ensures k in ks <==> 0 <= k < |signed| && Lower(signed[k]) in headers && headers[Lower(signed[k])].Some? {
        assert k in before <==> 0 <= k < |init| && Lower(init[k]) in headers && headers[Lower(init[k])].Some?;
      }
    }
  }

  lemma {:induction false} LinesJoined(lines: seq<(string, string)>)
    ensures ShowLines(lines) ==
            Join(seq(|lines|, i requires 0 <= i < |lines| => lines[i].0 + ":" + lines[i].1 + "\n"), "")
  {
    var texts := seq(|lines|, i requires 0 <= i < |lines| => lines[i].0 + ":" + lines[i].1 + "\n");
    if lines != [] {
      var init := lines[..|lines| - 1];
      LinesJoined(init);
      var before := seq(|init|, i requires 0 <= i < |init| => init[i].0 + ":" + init[i].1 + "\n");
      assert texts == before + [texts[|init|]];
      JoinAppend(before, texts[|init|]);
    }
  }

  lemma {:induction false} JoinAppend(parts: seq<string>, last: string)
    ensures Join(parts + [last], "") == Join(parts, "") + last
  {
    if |parts| > 1 {
      JoinAppend(parts[1..], last);
      assert (parts + [last])[1..] == parts[1..] + [last];
    } else if |parts| == 1 {
      assert (parts + [last])[1..] == [last];
    } else {
      assert parts + [last] == [last];
    }
  }

  /** The texts of these lines. */
  ghost predicate SelectedTexts(headers: map<string, Option<string>>, signed: seq<string>, ks: seq<nat>, texts: seq<string>) {
    && Selected(headers, signed, ks) && |texts| == |ks|
    && forall i :: 0 <= i < |ks| ==>
         && ks[i] < |signed| && Lower(signed[ks[i]]) in headers && headers[Lower(signed[ks[i]])].Some?
         && texts[i] == signed[ks[i]] + ":" + Trim(headers[Lower(signed[ks[i]])].value) + "\n"
  }

  lemma TextsExactly(headers: map<string, Option<string>>, signed: seq<string>)
    returns (ks: seq<nat>, texts: seq<string>)
    ensures SelectedTexts(headers, signed, ks, texts) && ShowLines(HeaderLines(headers, signed)) == Join(texts, "")
  {
    var lines := HeaderLines(headers, signed);
    ks := LinesExactly(headers, signed);
    LinesJoined(lines);
    texts := seq(|lines|, i requires 0 <= i < |lines| => lines[i].0 + ":" + lines[i].1 + "\n");
  }

  lemma TextStep(headers: map<string, Option<string>>, signed: seq<string>, i: nat)
    requires i < |signed|
    ensures ShowLines(HeaderLines(headers, signed[..i + 1])) ==
            ShowLines(HeaderLines(headers, signed[..i]))
            + match HeaderText(headers, signed[i])
              case Some(v) => signed[i] + ":" + v + "\n"
              case None => ""
  {
    assert signed[..i + 1][..i] == signed[..i];
    var lines := HeaderLines(headers, signed[..i]);
    match HeaderText(headers, signed[i])
    case Some(v) =>
      assert (lines + [(signed[i], v)])[..|lines|] == lines;
    case None =>
      assert lines + [] == lines;
  }

  /** A line for each signed name that the request has as text, in signing order. */
  method BuildCanonicalHeaders(headers: map<string, Option<string>>, signed: seq<string>) returns (r: string)
    ensures r == ShowLines(HeaderLines(headers, signed))
    ensures exists ks, texts :: SelectedTexts(headers, signed, ks, texts) && r == Join(texts, "")
  {
    ghost var _, _ := TextsExactly(headers, signed);
    r := "";
    for i := 0 to |signed|
      invariant r == ShowLines(HeaderLines(headers, signed[..i]))
    {
      TextStep(headers, signed, i);
      if Lower(signed[i]) in headers {
        match headers[Lower(signed[i])] {
          case Some(value) => r := r + (signed[i] + ":" + Trim(value) + "\n");
          case None =>
        }
      }
    }
    assert signed[..|signed|] == signed;
  }

  function Canonical(request: Request, signed: seq<string>, contentHash: string): string {
    request.verb + "\n" + request.path + "\n" + CanonicalQuery.Canonical(request.query) + "\n"
    + ShowLines(HeaderLines(request.headers, signed)) + "\n" + Join(signed, ";") + "\n" + contentHash
  }

  function StringToSign(hash: string -> string, canonical: string, date: string, scope: string): string {
    "AWS4-HMAC-SHA256\n" + date + "\n" + scope + "\n" + hash(canonical)
  }

  // ---------------------------------------------------------------- the canonical request as lines

  ghost predicate NoNewlines(request: Request, signed: seq<string>, contentHash: string) {
    && '\n' !in request.verb && '\n' !in request.path && '\n' !in request.query && '\n' !in contentHash
    && (forall k :: k in request.headers && request.headers[k].Some? ==> '\n' !in request.headers[k].value)
    && NoneContain(signed, '\n')
  }

  /** The names of the request's own headers hold no ':'; signed names may, and then have no line. */
  ghost predicate ProperNames(request: Request) {
    forall k :: k in request.headers ==> ':' !in k
  }

  /** What splitting a list of signed names at ';' always gives. */
  ghost predicate SplitNames(signed: seq<string>) {
    signed != [] && NoneContain(signed, ';')
  }

  function LineTexts(lines: seq<(string, string)>): (r: seq<string>)
    ensures |r| == |lines| && forall i :: 0 <= i < |r| ==> r[i] == ShowLine(lines[i])
  {
    seq(|lines|, i requires 0 <= i < |lines| => ShowLine(lines[i]))
  }

  function CanonicalLines(request: Request, signed: seq<string>, contentHash: string): seq<string> {
    [request.verb, request.path, CanonicalQuery.Canonical(request.query)]
    + LineTexts(HeaderLines(request.headers, signed))
    + ["", Join(signed, ";"), contentHash]
  }

  lemma {:induction false} JoinLines(lines: seq<(string, string)>, rest: seq<string>)
    requires rest != []
    ensures Join(LineTexts(lines) + rest, "\n") == ShowLines(lines) + Join(rest, "\n")
    decreases |lines|
  {
    if lines == [] {
      assert LineTexts(lines) + rest == rest;
    } else {
      var init, last := lines[..|lines| - 1], ShowLine(lines[|lines| - 1]);
      JoinLines(init, [last] + rest);
      assert LineTexts(lines) + rest == LineTexts(init) + ([last] + rest);
      assert ([last] + rest)[1..] == rest;
    }
  }

  lemma JoinCons(first: string, rest: seq<string>)
    requires rest != []
    ensures Join([first] + rest, "\n") == first + "\n" + Join(rest, "\n")
  {
    assert ([first] + rest)[1..] == rest;
  }

  lemma JoinTail(names: string, contentHash: string)
    ensures Join(["", names, contentHash], "\n") == "\n" + names + "\n" + contentHash
  {
    JoinCons(names, [contentHash]);
    JoinCons("", [names] + [contentHash]);
    assert ["", names, contentHash] == [""] + ([names] + [contentHash]);
  }

  lemma JoinHead(m: string, p: string, q: string, body: seq<string>)
    requires body != []
    ensures Join([m, p, q] + body, "\n") == m + "\n" + p + "\n" + q + "\n" + Join(body, "\n")
  {
    JoinCons(q, body);
    JoinCons(p, [q] + body);
    JoinCons(m, [p] + ([q] + body));
    assert [m, p, q] + body == [m] + ([p] + ([q] + body));
  }

  lemma CanonicalIsJoined(request: Request, signed: seq<string>, contentHash: string)
    ensures Canonical(request, signed, contentHash) == Join(CanonicalLines(request, signed, contentHash), "\n")
  {
    var lines, names := HeaderLines(request.headers, signed), Join(signed, ";");
    var tail := ["", names, contentHash];
    JoinTail(names, contentHash);
    JoinLines(lines, tail);
    var body := LineTexts(lines) + tail;
    var query := CanonicalQuery.Canonical(request.query);
    JoinHead(request.verb, request.path, query, body);
    assert CanonicalLines(request, signed, contentHash) == [request.verb, request.path, query] + body;
    Reassociate(request.verb + "\n" + request.path + "\n" + query + "\n", ShowLines(lines), names, contentHash);
  }

  lemma Reassociate(head: string, lines: string, names: string, contentHash: string)
    ensures head + (lines + ("\n" + names + "\n" + contentHash)) == head + lines + "\n" + names + "\n" + contentHash
  {
  }

  lemma {:induction false} TrimKeepsOut(s: string, c: char)
    requires c !in s
    ensures c !in Trim(s)
  {
    TrimStartKeepsOut(s, c);
    TrimEndKeepsOut(TrimStart(s), c);
  }

  lemma {:induction false} LinesHaveNoNewline(request: Request, signed: seq<string>, contentHash: string, names: seq<string>)
    requires NoNewlines(request, signed, contentHash) && NoneContain(names, '\n')
    ensures forall i :: 0 <= i < |HeaderLines(request.headers, names)| ==>
              var line := HeaderLines(request.headers, names)[i];
              '\n' !in line.0 && '\n' !in line.1
  {
    if names != [] {
      var last := names[|names| - 1];
      LinesHaveNoNewline(request, signed, contentHash, names[..|names| - 1]);
      if Lower(last) in request.headers && request.headers[Lower(last)].Some? {
        TrimKeepsOut(request.headers[Lower(last)].value, '\n');
      }
    }
  }

  /** A name with a line is a header of the request, in some mixture of cases. */
  lemma {:induction false} LineNamesAreProper(request: Request, names: seq<string>)
    requires ProperNames(request)
    ensures forall i :: 0 <= i < |HeaderLines(request.headers, names)| ==>
              ':' !in HeaderLines(request.headers, names)[i].0
  {
    if names != [] {
      LineNamesAreProper(request, names[..|names| - 1]);
      LowerKeepsColon(names[|names| - 1]);
    }
  }

  lemma {:induction false} LowerKeepsColon(s: string)
    ensures ':' in s <==> ':' in Lower(s)
  {
    forall i | 0 <= i < |s| ensures s[i] == ':' <==> Lower(s)[i] == ':' {
    }
  }

  lemma QueryKeepsOut(query: string, c: char)
    requires c !in query && c != '&' && c != '='
    ensures c !in CanonicalQuery.Canonical(query)
  {
    var params := Params(query);
    var sorted := Sorting.Sort(params, ParamLe);
    SplitKeepsOut(query, '&', c);
    forall i | 0 <= i < |sorted| ensures c !in Show(sorted[i]) {
      Sorting.SortSameElements(params, ParamLe, sorted[i]);
      var k :| 0 <= k < |params| && params[k] == sorted[i];
      SplitOnceRebuilds(Split(query, '&')[k], '=');
    }
    JoinKeepsOut(ShowAll(sorted), "&", c);
  }

  lemma SplitToLines(request: Request, signed: seq<string>, contentHash: string)
    requires NoNewlines(request, signed, contentHash)
    ensures Split(Canonical(request, signed, contentHash), '\n') == CanonicalLines(request, signed, contentHash)
  {
    CanonicalIsJoined(request, signed, contentHash);
    LinesHaveNoNewline(request, signed, contentHash, signed);
    QueryKeepsOut(request.query, '\n');
    JoinKeepsOut(signed, ";", '\n');
    SplitOfJoin(CanonicalLines(request, signed, contentHash), '\n');
  }

  /**
   Splitting a canonical request at its newlines gives its parts back: method, path, canonical query, a
   line for each signed name that the request has, an empty line, the signed names and the payload hash.
   */
  lemma SplitOfCanonical(request: Request, signed: seq<string>, contentHash: string) returns (ks: seq<nat>)
    requires NoNewlines(request, signed, contentHash)
    ensures Selected(request.headers, signed, ks)
    ensures var parts, m := Split(Canonical(request, signed, contentHash), '\n'), |ks|;
            && |parts| == m + 6
            && parts[0] == request.verb && parts[1] == request.path
            && parts[2] == CanonicalQuery.Canonical(request.query)
            && (forall i :: 0 <= i < m ==>
                  && ks[i] < |signed| && Lower(signed[ks[i]]) in request.headers
                  && request.headers[Lower(signed[ks[i]])].Some?
                  && parts[3 + i] == signed[ks[i]] + ":" + Trim(request.headers[Lower(signed[ks[i]])].value))
            && parts[m + 3] == "" && parts[m + 4] == Join(signed, ";") && parts[m + 5] == contentHash
  {
    ks := LineTextsExactly(request.headers, signed);
    SplitToLines(request, signed, contentHash);
    LinesAt([request.verb, request.path, CanonicalQuery.Canonical(request.query)],
            LineTexts(HeaderLines(request.headers, signed)),
            ["", Join(signed, ";"), contentHash]);
  }

  lemma LineTextsExactly(headers: map<string, Option<string>>, signed: seq<string>) returns (ks: seq<nat>)
    ensures Selected(headers, signed, ks) && |LineTexts(HeaderLines(headers, signed))| == |ks|
    ensures forall i :: 0 <= i < |ks| ==>
              && ks[i] < |signed| && Lower(signed[ks[i]]) in headers && headers[Lower(signed[ks[i]])].Some?
              && LineTexts(HeaderLines(headers, signed))[i]
                 == signed[ks[i]] + ":" + Trim(headers[Lower(signed[ks[i]])].value)
  {
    ks := LinesExactly(headers, signed);
  }

  lemma LinesAt(head: seq<string>, body: seq<string>, tail: seq<string>)
    requires |head| == 3 && |tail| == 3
    ensures var all, m := head + body + tail, |body|;
            && |all| == m + 6 && all[0] == head[0] && all[1] == head[1] && all[2] == head[2]
            && (forall i :: 0 <= i < m ==> all[3 + i] == body[i])
            && all[m + 3] == tail[0] && all[m + 4] == tail[1] && all[m + 5] == tail[2]
  {
  }

  lemma SameLines(a: seq<(string, string)>, b: seq<(string, string)>)
    requires LineTexts(a) == LineTexts(b)
    requires forall i :: 0 <= i < |a| ==> ':' !in a[i].0
    requires forall i :: 0 <= i < |b| ==> ':' !in b[i].0
    ensures a == b
  {
    assert |a| == |LineTexts(a)| == |b|;
    forall i | 0 <= i < |a| ensures a[i] == b[i] {
      assert LineTexts(a)[i] == LineTexts(b)[i];
      SplitOnceOfPair(a[i].0, a[i].1, ':');
      SplitOnceOfPair(b[i].0, b[i].1, ':');
    }
  }

  /** A canonical request determines everything that went into it. */
  lemma CanonicalDetermines(r1: Request, signed1: seq<string>, hash1: string,
                            r2: Request, signed2: seq<string>, hash2: string)
    requires NoNewlines(r1, signed1, hash1) && ProperNames(r1) && SplitNames(signed1)
    requires NoNewlines(r2, signed2, hash2) && ProperNames(r2) && SplitNames(signed2)
    requires Canonical(r1, signed1, hash1) == Canonical(r2, signed2, hash2)
    ensures r1.verb == r2.verb && r1.path == r2.path
    ensures multiset(Params(r1.query)) == multiset(Params(r2.query))
    ensures HeaderLines(r1.headers, signed1) == HeaderLines(r2.headers, signed2)
    ensures signed1 == signed2 && hash1 == hash2
  {
    SplitToLines(r1, signed1, hash1);
    SplitToLines(r2, signed2, hash2);
    var c1, c2 := CanonicalLines(r1, signed1, hash1), CanonicalLines(r2, signed2, hash2);
    var l1, l2 := HeaderLines(r1.headers, signed1), HeaderLines(r2.headers, signed2);
    assert |c1| == |l1| + 6 && |c2| == |l2| + 6;
    assert c1[0] == c2[0] && c1[1] == c2[1] && c1[2] == c2[2];
    CanonicalIffSameParams(r1.query, r2.query);
    assert LineTexts(l1) == c1[3..3 + |l1|] == c2[3..3 + |l2|] == LineTexts(l2);
    LineNamesAreProper(r1, signed1);
    LineNamesAreProper(r2, signed2);
    SameLines(l1, l2);
    assert c1[|l1| + 4] == c2[|l2| + 4] && c1[|l1| + 5] == c2[|l2| + 5];
    SplitOfJoin(signed1, ';');
    SplitOfJoin(signed2, ';');
  }

  /** The string that is signed: the algorithm, the date, the scope and the hash, a line each. */
  lemma SplitOfStringToSign(hash: string -> string, canonical: string, date: string, scope: string)
    requires '\n' !in date && '\n' !in scope && '\n' !in hash(canonical)
    ensures Split(StringToSign(hash, canonical, date, scope), '\n') ==
            ["AWS4-HMAC-SHA256", date, scope, hash(canonical)]
  {
    var parts := ["AWS4-HMAC-SHA256", date, scope, hash(canonical)];
    SplitOfJoin(parts, '\n');
    JoinCons(scope, [hash(canonical)]);
    JoinCons(date, [scope, hash(canonical)]);
    JoinCons("AWS4-HMAC-SHA256", [date, scope, hash(canonical)]);
    assert [scope] + [hash(canonical)] == [scope, hash(canonical)];
    assert [date] + [scope, hash(canonical)] == [date, scope, hash(canonical)];
    assert ["AWS4-HMAC-SHA256"] + [date, scope, hash(canonical)] == parts;
    assert Join(parts, "\n") == "AWS4-HMAC-SHA256" + "\n" + (date + "\n" + (scope + "\n" + hash(canonical)));
    assert StringToSign(hash, canonical, date, scope)
        == "AWS4-HMAC-SHA256" + "\n" + (date + "\n" + (scope + "\n" + hash(canonical)));
  }

  /** Spaces and tabs around a header's value, as section 5.6.3 of RFC 9110 allows, are not signed. */
  lemma OptionalWhiteSpaceTrimmed(before: string, value: string, after: string)
    requires forall i :: 0 <= i < |before| ==> before[i] == ' ' || before[i] == '\t'
    requires forall i :: 0 <= i < |after| ==> after[i] == ' ' || after[i] == '\t'
    requires Tight(value) && value != ""
    ensures Trim(before + value + after) == value
  {
    TrimPadded(before, value, after);
  }

  /** The string that is signed determines the date, the scope and the whole canonical request. */
  lemma StringToSignDetermines(hash: string -> string, c1: string, date1: string, scope1: string,
                               c2: string, date2: string, scope2: string)
    requires forall a, b :: hash(a) == hash(b) ==> a == b
    requires '\n' !in date1 && '\n' !in date2 && '\n' !in scope1 && '\n' !in scope2
    requires StringToSign(hash, c1, date1, scope1) == StringToSign(hash, c2, date2, scope2)
    ensures c1 == c2 && date1 == date2 && scope1 == scope2
  {
    var scheme := "AWS4-HMAC-SHA256";
    assert StringToSign(hash, c1, date1, scope1) == scheme + "\n" + (date1 + "\n" + (scope1 + "\n" + hash(c1)));
    assert StringToSign(hash, c2, date2, scope2) == scheme + "\n" + (date2 + "\n" + (scope2 + "\n" + hash(c2)));
    SplitOnceOfPair(scheme, date1 + "\n" + (scope1 + "\n" + hash(c1)), '\n');
    SplitOnceOfPair(scheme, date2 + "\n" + (scope2 + "\n" + hash(c2)), '\n');
    SplitOnceOfPair(date1, scope1 + "\n" + hash(c1), '\n');
    SplitOnceOfPair(date2, scope2 + "\n" + hash(c2), '\n');
    SplitOnceOfPair(scope1, hash(c1), '\n');
    SplitOnceOfPair(scope2, hash(c2), '\n');
  }
}
