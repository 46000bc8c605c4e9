/** The Authorization header of AWS Signature Version 4. */
module Authorization {
  import opened Types
  import opened Sequences
  import opened Strings

  datatype AuthorizationInfo = AuthorizationInfo(
    accessKeyId: string,
    credentialScope: string,
    signedHeaders: seq<string>,
    signature: string)

  const SCHEME := "AWS4-HMAC-SHA256 "

  datatype Field = Credential | SignedHeaders | Signature

  function Prefix(f: Field): string {
    match f
    case Credential => "Credential="
    case SignedHeaders => "SignedHeaders="
    case Signature => "Signature="
  }

  lemma PrefixesDiffer(s: string, f: Field, g: Field)
    requires Prefix(f) <= s && Prefix(g) <= s
    ensures f == g
  {
    assert s[0] == Prefix(f)[0] == Prefix(g)[0];
    assert s[4] == Prefix(f)[4] == Prefix(g)[4];
  }

  /** The value of the last part that carries the field. */
  function LastValue(parts: seq<string>, f: Field): Option<string> {
    if parts == [] then None
    else
      match StripPrefix(Trim(parts[|parts| - 1]), Prefix(f))
      case Some(v) => Some(v)
      case None => LastValue(parts[..|parts| - 1], f)
  }

  function Invalid<T>(message: string): Result<T> {
    Err(InvalidRequest(message))
  }

  /** What the parser makes of the three values. */
  function Assemble(credential: Option<string>, signedHeaders: Option<string>, signature: Option<string>):
    Result<AuthorizationInfo>
  {
    if credential.None? then Invalid("Missing Credential in authorization header")
    else if signedHeaders.None? then Invalid("Missing SignedHeaders in authorization header")
    else if signature.None? then Invalid("Missing Signature in authorization header")
    else
      var parts := Split(credential.value, '/');
      if |parts| != 5 then Invalid("Invalid credential format")
      else Ok(AuthorizationInfo(parts[0], Join(parts[1..], "/"), Split(signedHeaders.value, ';'), signature.value))
  }

  /** The comma-separated parts after the scheme, which is stripped as often as it is repeated. */
  function Parts(header: string): seq<string> {
    Split(TrimStartMatches(header, SCHEME), ',')
  }

  function Parsed(header: string): Result<AuthorizationInfo> {
    if !StartsWith(header, SCHEME) then Invalid("Invalid authorization header format")
    else
      Assemble(LastValue(Parts(header), Credential),
               LastValue(Parts(header), SignedHeaders),
               LastValue(Parts(header), Signature))
  }

  lemma LastValueStep(parts: seq<string>, i: nat, f: Field)
    requires i < |parts|
    ensures LastValue(parts[..i + 1], f) ==
            if Prefix(f) <= Trim(parts[i]) then Some(Trim(parts[i])[|Prefix(f)|..]) else LastValue(parts[..i], f)
  {
    assert parts[..i + 1][..i] == parts[..i];
  }

  /** What one part changes: at most the value of the one field that it carries. */
  lemma PartStep(parts: seq<string>, i: nat)
    requires i < |parts|
    ensures forall f: Field ::
              LastValue(parts[..i + 1], f) ==
              if StripPrefix(Trim(parts[i]), Prefix(f)).Some? then StripPrefix(Trim(parts[i]), Prefix(f))
              else LastValue(parts[..i], f)
    ensures forall f: Field, g: Field ::
              StripPrefix(Trim(parts[i]), Prefix(f)).Some? && StripPrefix(Trim(parts[i]), Prefix(g)).Some? ==> f == g
  {
    forall f: Field
      ensures LastValue(parts[..i + 1], f) ==
              if StripPrefix(Trim(parts[i]), Prefix(f)).Some? then StripPrefix(Trim(parts[i]), Prefix(f))
              else LastValue(parts[..i], f)
    {
      LastValueStep(parts, i, f);
    }
    forall f: Field, g: Field | Prefix(f) <= Trim(parts[i]) && Prefix(g) <= Trim(parts[i]) ensures f == g {
      PrefixesDiffer(Trim(parts[i]), f, g);
    }
  }

  /** Some part, without the white space around it, starts with the prefix. */
  ghost predicate HasField(parts: seq<string>, prefix: string) {
    exists k :: 0 <= k < |parts| && prefix <= Trim(parts[k])
  }

  /** The last part that starts with the prefix is part k, and v follows the prefix there. */
  ghost predicate LastField(parts: seq<string>, prefix: string, k: nat, v: string) {
    && k < |parts| && Trim(parts[k]) == prefix + v
    && forall j :: k < j < |parts| ==> !(prefix <= Trim(parts[j]))
  }

  lemma {:induction false} HasFieldExactly(parts: seq<string>, f: Field)
    ensures LastValue(parts, f).Some? <==> HasField(parts, Prefix(f))
  {
    if parts != [] {
      var init := parts[..|parts| - 1];
      HasFieldExactly(init, f);
      forall k | 0 <= k < |init| ensures init[k] == parts[k] {
      }
      if HasField(init, Prefix(f)) {
        var k :| 0 <= k < |init| && Prefix(f) <= Trim(init[k]);
        assert Prefix(f) <= Trim(parts[k]);
      }
    }
  }

  lemma {:induction false} LastFieldGives(parts: seq<string>, f: Field, k: nat, v: string)
    requires LastField(parts, Prefix(f), k, v)
    ensures LastValue(parts, f) == Some(v)
  {
    var init := parts[..|parts| - 1];
    if k < |init| {
      assert !(Prefix(f) <= Trim(parts[|init|]));
      LastFieldGives(init, f, k, v);
    } else {
      assert (Prefix(f) + v)[|Prefix(f)|..] == v;
    }
  }

  lemma LastValueIs(parts: seq<string>, f: Field)
    ensures LastValue(parts, f).Some? <==> HasField(parts, Prefix(f))
    ensures forall k: nat, v: string :: LastField(parts, Prefix(f), k, v) ==> LastValue(parts, f) == Some(v)
  {
    HasFieldExactly(parts, f);
    forall k: nat, v: string | LastField(parts, Prefix(f), k, v) ensures LastValue(parts, f) == Some(v) {
      LastFieldGives(parts, f, k, v);
    }
  }

  /** Which header is rejected with which message, and what an accepted one is parsed to. */
  lemma ParsedExactly(header: string)
    ensures !("AWS4-HMAC-SHA256 " <= header) ==>
              Parsed(header) == Err(InvalidRequest("Invalid authorization header format"))
    ensures "AWS4-HMAC-SHA256 " <= header ==>
              var parts := Split(TrimStartMatches(header, "AWS4-HMAC-SHA256 "), ',');
              && (!HasField(parts, "Credential=") ==>
                    Parsed(header) == Err(InvalidRequest("Missing Credential in authorization header")))
              && (HasField(parts, "Credential=") && !HasField(parts, "SignedHeaders=") ==>
                    Parsed(header) == Err(InvalidRequest("Missing SignedHeaders in authorization header")))
              && (HasField(parts, "Credential=") && HasField(parts, "SignedHeaders=") && !HasField(parts, "Signature=") ==>
                    Parsed(header) == Err(InvalidRequest("Missing Signature in authorization header")))
    ensures forall i: nat, j: nat, k: nat, credential: string, signed: string, signature: string ::
              var parts := Split(TrimStartMatches(header, "AWS4-HMAC-SHA256 "), ',');
              && "AWS4-HMAC-SHA256 " <= header
              && LastField(parts, "Credential=", i, credential)
              && LastField(parts, "SignedHeaders=", j, signed)
              && LastField(parts, "Signature=", k, signature) ==>
                var scope := Split(credential, '/');
                Parsed(header) ==
                if |scope| != 5 then Err(InvalidRequest("Invalid credential format"))
                else Ok(AuthorizationInfo(scope[0], Join(scope[1..], "/"), Split(signed, ';'), signature))
  {
    var parts := Parts(header);
    LastValueIs(parts, Credential);
    LastValueIs(parts, SignedHeaders);
    LastValueIs(parts, Signature);
  }

  lemma {:induction false} LastFieldOf(parts: seq<string>, f: Field) returns (k: nat)
    requires LastValue(parts, f).Some?
    ensures LastField(parts, Prefix(f), k, LastValue(parts, f).value)
  {
    var last := Trim(parts[|parts| - 1]);
    if Prefix(f) <= last {
      k := |parts| - 1;
      PrefixAndRest(last, Prefix(f));
    } else {
      var init := parts[..|parts| - 1];
      k := LastFieldOf(init, f);
      forall j | k < j < |parts| ensures !(Prefix(f) <= Trim(parts[j])) {
        assert j < |init| ==> parts[j] == init[j];
      }
    }
  }

  lemma PrefixAndRest(s: string, prefix: string)
    requires prefix <= s
    ensures s == prefix + s[|prefix|..]
  {
  }

  lemma AcceptedFields(header: string) returns (i: nat, j: nat, k: nat)
    requires Parsed(header).Ok?
    ensures var info, parts := Parsed(header).value, Split(TrimStartMatches(header, "AWS4-HMAC-SHA256 "), ',');
            && LastField(parts, "Credential=", i, info.accessKeyId + "/" + info.credentialScope)
            && LastField(parts, "SignedHeaders=", j, Join(info.signedHeaders, ";"))
            && LastField(parts, "Signature=", k, info.signature)
  {
    var parts := Parts(header);
    i := LastFieldOf(parts, Credential);
    j := LastFieldOf(parts, SignedHeaders);
    k := LastFieldOf(parts, Signature);
    AssembledParts(LastValue(parts, Credential).value, LastValue(parts, SignedHeaders).value,
                   LastValue(parts, Signature).value);
  }

  lemma AssembledParts(credential: string, signedHeaders: string, signature: string)
    ensures var r := Assemble(Some(credential), Some(signedHeaders), Some(signature));
            r.Ok? ==>
              && credential == r.value.accessKeyId + "/" + r.value.credentialScope
              && signedHeaders == Join(r.value.signedHeaders, ";")
              && signature == r.value.signature
  {
    JoinOfSplit(credential, '/');
    JoinOfSplit(signedHeaders, ';');
  }

  /** A repeated scheme makes no difference. */
  lemma SchemeRepeated(header: string)
    requires "AWS4-HMAC-SHA256 " <= header
    ensures Parsed("AWS4-HMAC-SHA256 " + header) == Parsed(header)
  {
    assert ("AWS4-HMAC-SHA256 " + header)[|SCHEME|..] == header;
  }

  lemma ParsedSummary(header: string)
    ensures var r := Parsed(header);
            && (!("AWS4-HMAC-SHA256 " <= header) ==>
                  r == Err(InvalidRequest("Invalid authorization header format")))
            && (r.Err? ==> r.error.InvalidRequest?)
            && (r.Ok? ==>
                  var parts := Split(TrimStartMatches(header, "AWS4-HMAC-SHA256 "), ',');
                  exists i: nat, j: nat, k: nat ::
                    && LastField(parts, "Credential=", i, r.value.accessKeyId + "/" + r.value.credentialScope)
                    && LastField(parts, "SignedHeaders=", j, Join(r.value.signedHeaders, ";"))
                    && LastField(parts, "Signature=", k, r.value.signature))
  {
    if Parsed(header).Ok? {
      var _, _, _ := AcceptedFields(header);
    }
  }

  method ParseAuthorizationHeader(header: string) returns (r: Result<AuthorizationInfo>)
    ensures r == Parsed(header)
    ensures !("AWS4-HMAC-SHA256 " <= header) ==>
              r == Err(InvalidRequest("Invalid authorization header format"))
    ensures r.Err? ==> r.error.InvalidRequest?
    ensures r.Ok? ==>
              var parts := Split(TrimStartMatches(header, "AWS4-HMAC-SHA256 "), ',');
              exists i: nat, j: nat, k: nat ::
                && LastField(parts, "Credential=", i, r.value.accessKeyId + "/" + r.value.credentialScope)
                && LastField(parts, "SignedHeaders=", j, Join(r.value.signedHeaders, ";"))
                && LastField(parts, "Signature=", k, r.value.signature)
  {
    ParsedSummary(header);
    if !StartsWith(header, SCHEME) {
      return Invalid("Invalid authorization header format");
    }
    var parts := Parts(header);
    var credential: Option<string> := None;
    var signedHeaders: Option<string> := None;
    var signature: Option<string> := None;
    for i := 0 to |parts|
      invariant credential == LastValue(parts[..i], Credential)
      invariant signedHeaders == LastValue(parts[..i], SignedHeaders)
      invariant signature == LastValue(parts[..i], Signature)
    {
      var part := Trim(parts[i]);
      PartStep(parts, i);
      if StripPrefix(part, Prefix(Credential)).Some? {
        credential := StripPrefix(part, Prefix(Credential));
      } else if StripPrefix(part, Prefix(SignedHeaders)).Some? {
        signedHeaders := StripPrefix(part, Prefix(SignedHeaders));
      } else if StripPrefix(part, Prefix(Signature)).Some? {
        signature := StripPrefix(part, Prefix(Signature));
      }
    }
    assert parts[..|parts|] == parts;
    r := Assemble(credential, signedHeaders, signature);
  }

  // ---------------------------------------------------------------- printing

  function Value(info: AuthorizationInfo, f: Field): string {
    match f
    case Credential => info.accessKeyId + "/" + info.credentialScope
    case SignedHeaders => Join(info.signedHeaders, ";")
    case Signature => info.signature
  }

  /** White space around a field. */
  datatype Padding = Padding(before: string, after: string)

  function PrintField(info: AuthorizationInfo, f: Field, pad: Padding): string {
    pad.before + (Prefix(f) + Value(info, f)) + pad.after
  }

  function PrintParts(info: AuthorizationInfo, order: seq<Field>, pads: seq<Padding>): (r: seq<string>)
    requires |pads| == |order|
    ensures |r| == |order| && forall i :: 0 <= i < |r| ==> r[i] == PrintField(info, order[i], pads[i])
  {
    seq(|order|, i requires 0 <= i < |order| => PrintField(info, order[i], pads[i]))
  }

  function Print(info: AuthorizationInfo, order: seq<Field>, pads: seq<Padding>): string
    requires |pads| == |order|
  {
    SCHEME + Join(PrintParts(info, order, pads), ",")
  }

  predicate EndsTight(s: string) {
    s == "" || !IsWhiteSpace(s[|s| - 1])
  }

  /** No delimiter and no trailing white space inside a field, and a scope of four parts. */
  ghost predicate Printable(info: AuthorizationInfo) {
    && ',' !in info.accessKeyId && '/' !in info.accessKeyId
    && ',' !in info.credentialScope && |Split(info.credentialScope, '/')| == 4
    && EndsTight(info.credentialScope)
    && info.signedHeaders != [] && NoneContain(info.signedHeaders, ';') && NoneContain(info.signedHeaders, ',')
    && EndsTight(Join(info.signedHeaders, ";"))
    && ',' !in info.signature && EndsTight(info.signature)
  }

  lemma {:induction false} JoinKeepsOut(parts: seq<string>, sep: string, c: char)
    requires NoneContain(parts, c) && c !in sep
    ensures c !in Join(parts, sep)
  {
    if |parts| > 1 {
      JoinKeepsOut(parts[1..], sep, c);
    }
  }

  lemma {:induction false} SplitKeepsOut(s: string, sep: char, c: char)
    requires c !in s
    ensures NoneContain(Split(s, sep), c)
  {
    if s != [] {
      SplitKeepsOut(s[1..], sep, c);
    }
  }

  lemma ScopeNotEmpty(scope: string)
    requires |Split(scope, '/')| == 4
    ensures scope != ""
  {
  }

  lemma FieldIsTight(info: AuthorizationInfo, f: Field)
    requires Printable(info)
    ensures Tight(Prefix(f) + Value(info, f)) && ',' !in Prefix(f) + Value(info, f)
  {
    ScopeNotEmpty(info.credentialScope);
    JoinKeepsOut(info.signedHeaders, ";", ',');
  }

  lemma PrintedPart(info: AuthorizationInfo, f: Field, pad: Padding)
    requires Printable(info) && Blank(pad.before) && Blank(pad.after)
    ensures ',' !in PrintField(info, f, pad)
    ensures Trim(PrintField(info, f, pad)) == Prefix(f) + Value(info, f)
  {
    FieldIsTight(info, f);
    TrimPadded(pad.before, Prefix(f) + Value(info, f), pad.after);
    assert ',' !in pad.before && ',' !in pad.after;
  }

  /** The last part that carries a field decides its value. */
  lemma {:induction false} LastValueAt(parts: seq<string>, k: nat, f: Field, v: string)
    requires k < |parts| && Trim(parts[k]) == Prefix(f) + v
    requires forall i :: k < i < |parts| ==> !(Prefix(f) <= Trim(parts[i]))
    ensures LastValue(parts, f) == Some(v)
    decreases |parts|
  {
    var init := parts[..|parts| - 1];
    if k < |init| {
      LastValueAt(init, k, f, v);
    } else {
      assert (Prefix(f) + v)[|Prefix(f)|..] == v;
    }
  }

  lemma OnlyValue(info: AuthorizationInfo, order: seq<Field>, pads: seq<Padding>, k: nat)
    requires Printable(info) && |pads| == |order| && k < |order| && Distinct(order)
    requires forall i :: 0 <= i < |pads| ==> Blank(pads[i].before) && Blank(pads[i].after)
    ensures LastValue(PrintParts(info, order, pads), order[k]) == Some(Value(info, order[k]))
  {
    var parts := PrintParts(info, order, pads);
    forall i | k < i < |order| ensures !(Prefix(order[k]) <= Trim(parts[i])) {
      PrintedPart(info, order[i], pads[i]);
      if Prefix(order[k]) <= Trim(parts[i]) {
        PrefixesDiffer(Trim(parts[i]), order[k], order[i]);
      }
    }
    PrintedPart(info, order[k], pads[k]);
    LastValueAt(parts, k, order[k], Value(info, order[k]));
  }

  /** Any record whose fields are printable is read back, whatever the order of the fields and the padding. */
  lemma ParseOfPrint(info: AuthorizationInfo, order: seq<Field>, pads: seq<Padding>)
    requires Printable(info) && Distinct(order) && |order| == 3 && |pads| == 3
    requires forall i :: 0 <= i < |pads| ==> Blank(pads[i].before) && Blank(pads[i].after)
    ensures Parsed(Print(info, order, pads)) == Ok(info)
  {
    PartsOfPrint(info, order, pads);
    ValueOfPrint(info, order, pads, Credential);
    ValueOfPrint(info, order, pads, SignedHeaders);
    ValueOfPrint(info, order, pads, Signature);
    AssembleValues(info);
  }

  /** The usual form of the header, with a space after each comma. */
  lemma ParseOfUsualForm(info: AuthorizationInfo)
    requires Printable(info)
    ensures Parsed("AWS4-HMAC-SHA256 " + (("Credential=" + (info.accessKeyId + "/" + info.credentialScope)) + ","
                   + ((" " + ("SignedHeaders=" + Join(info.signedHeaders, ";"))) + ","
                      + (" " + ("Signature=" + info.signature))))) == Ok(info)
  {
    var pads := [Padding("", ""), Padding(" ", ""), Padding(" ", "")];
    var order := [Credential, SignedHeaders, Signature];
    ParseOfPrint(info, order, pads);
    var parts := PrintParts(info, order, pads);
    Padded("", Prefix(Credential) + Value(info, Credential));
    Padded(" ", Prefix(SignedHeaders) + Value(info, SignedHeaders));
    Padded(" ", Prefix(Signature) + Value(info, Signature));
    JoinThree(parts);
  }

  lemma Padded(before: string, s: string)
    ensures before + s + "" == before + s
    ensures "" + s == s
  {
  }

  lemma JoinThree(parts: seq<string>)
    requires |parts| == 3
    ensures Join(parts, ",") == parts[0] + "," + (parts[1] + "," + parts[2])
  {
    assert parts[1..][1..] == [parts[2]];
    assert Join(parts[1..], ",") == parts[1] + "," + parts[2];
  }

  lemma ValueOfPrint(info: AuthorizationInfo, order: seq<Field>, pads: seq<Padding>, f: Field)
    requires Printable(info) && Distinct(order) && |order| == 3 && |pads| == 3
    requires forall i :: 0 <= i < |pads| ==> Blank(pads[i].before) && Blank(pads[i].after)
    ensures LastValue(PrintParts(info, order, pads), f) == Some(Value(info, f))
  {
    AllFieldsThere(order, f);
    var k :| 0 <= k < |order| && order[k] == f;
    OnlyValue(info, order, pads, k);
  }

  lemma AssembleValues(info: AuthorizationInfo)
    requires Printable(info)
    ensures Assemble(Some(Value(info, Credential)), Some(Value(info, SignedHeaders)), Some(Value(info, Signature)))
            == Ok(info)
  {
    CredentialSplits(info);
    SplitOfJoin(info.signedHeaders, ';');
  }

  lemma CredentialSplits(info: AuthorizationInfo)
    requires Printable(info)
    ensures var split := Split(Value(info, Credential), '/');
            |split| == 5 && split[0] == info.accessKeyId && Join(split[1..], "/") == info.credentialScope
  {
    SplitPart(info.accessKeyId, info.credentialScope, '/');
    JoinOfSplit(info.credentialScope, '/');
    assert Split(Value(info, Credential), '/')[1..] == Split(info.credentialScope, '/');
  }

  lemma AllFieldsThere(order: seq<Field>, f: Field)
    requires Distinct(order) && |order| == 3
    ensures f in order
  {
    assert order[0] != order[1] && order[1] != order[2] && order[0] != order[2];
  }

  lemma PartsOfPrint(info: AuthorizationInfo, order: seq<Field>, pads: seq<Padding>)
    requires Printable(info) && |order| == 3 && |pads| == 3
    requires forall i :: 0 <= i < |pads| ==> Blank(pads[i].before) && Blank(pads[i].after)
    ensures StartsWith(Print(info, order, pads), SCHEME)
    ensures Parts(Print(info, order, pads)) == PrintParts(info, order, pads)
  {
    var parts := PrintParts(info, order, pads);
    forall i | 0 <= i < 3 ensures ',' !in parts[i] {
      PrintedPart(info, order[i], pads[i]);
    }
    SplitOfJoin(parts, ',');
    var rest := Join(parts, ",");
    FirstPrinted(info, order[0], pads[0]);
    assert rest[0] == parts[0][0];
    SchemeStripped(rest);
  }

  lemma FirstPrinted(info: AuthorizationInfo, f: Field, pad: Padding)
    requires Blank(pad.before)
    ensures PrintField(info, f, pad) != "" && PrintField(info, f, pad)[0] != 'A'
  {
    var part := PrintField(info, f, pad);
    assert pad.before == "" ==> part[0] == Prefix(f)[0];
    assert pad.before != "" ==> part[0] == pad.before[0];
  }

  lemma SchemeStripped(rest: string)
    requires rest != "" && rest[0] != 'A'
    ensures TrimStartMatches(SCHEME + rest, SCHEME) == rest
  {
    assert SCHEME[0] == 'A';
    assert (SCHEME + rest)[|SCHEME|..] == rest;
    assert TrimStartMatches(rest, SCHEME) == rest;
  }

  // ---------------------------------------------------------------- what can be parsed

  lemma {:induction false} TrimStartKeepsOut(s: string, c: char)
    requires c !in s
    ensures c !in TrimStart(s)
  {
    if s != [] && IsWhiteSpace(s[0]) {
      TrimStartKeepsOut(s[1..], c);
    }
  }

  lemma {:induction false} TrimEndKeepsOut(s: string, c: char)
    requires c !in s
    ensures c !in TrimEnd(s) && EndsTight(TrimEnd(s))
  {
    if s != [] && IsWhiteSpace(s[|s| - 1]) {
      TrimEndKeepsOut(s[..|s| - 1], c);
    }
  }

  lemma {:induction false} ValueIsClean(parts: seq<string>, f: Field)
    requires NoneContain(parts, ',')
    ensures var v := LastValue(parts, f); v.Some? ==> ',' !in v.value && EndsTight(v.value)
  {
    if parts != [] {
      var part := parts[|parts| - 1];
      TrimStartKeepsOut(part, ',');
      TrimEndKeepsOut(TrimStart(part), ',');
      ValueIsClean(parts[..|parts| - 1], f);
    }
  }

  /** The records that some header parses to are exactly the printable ones. */
  lemma ParseableIffPrintable(info: AuthorizationInfo)
    ensures (exists header :: Parsed(header) == Ok(info)) <==> Printable(info)
  {
    if Printable(info) {
      var pads := [Padding("", ""), Padding("", ""), Padding("", "")];
      ParseOfPrint(info, [Credential, SignedHeaders, Signature], pads);
    }
    if header :| Parsed(header) == Ok(info) {
      ParsedIsPrintable(header);
    }
  }

  lemma ParsedIsPrintable(header: string)
    requires Parsed(header).Ok?
    ensures Printable(Parsed(header).value)
  {
    var info := Parsed(header).value;
    JoinOfSplit(TrimStartMatches(header, SCHEME), ',');
    ValueIsClean(Parts(header), Credential);
    ValueIsClean(Parts(header), SignedHeaders);
    ValueIsClean(Parts(header), Signature);
    var credential := LastValue(Parts(header), Credential).value;
    var parts := Split(credential, '/');
    SplitKeepsOut(credential, '/', ',');
    JoinOfSplit(credential, '/');
    JoinKeepsOut(parts[1..], "/", ',');
    SplitOfJoin(parts[1..], '/');
    assert credential == parts[0] + "/" + info.credentialScope;
    ScopeNotEmpty(info.credentialScope);
    var signedHeaders := LastValue(Parts(header), SignedHeaders).value;
    SplitKeepsOut(signedHeaders, ';', ',');
    JoinOfSplit(signedHeaders, ';');
  }
}
