/** Signing and verifying (auth/httpsig/sign.go and verify.go). The signer builds the base from its configuration,
    the verifier from the headers it re-parses; the theorems say that the two agree. Key material and base64 are
    parameters. */
module SignVerify {
  import opened Text
  import opened Components
  import opened SignatureParameters
  import opened Dictionary
  import opened SignatureBase

  /** The cryptographic side: a signer and its matching verifier. */
  datatype Scheme = Scheme(
    alg: string, keyID: string,
    sign: string -> Option<string>, check: (string, string) -> bool,
    codec: Codec)

  datatype SignConfig = SignConfig(
    name: string, components: seq<string>, created: int, expires: int, nonce: string, tag: string)

  /** Times are in nanoseconds; `now` is what the verifier's clock shows. */
  datatype VerifyConfig = VerifyConfig(
    name: string, required: seq<string>, requiredTag: string, maxAge: int, allowedSkew: int, now: int)

  const SECOND := 1_000_000_000

  // ---------------------------------------------------------------- signing

  function NameOf(cfg: SignConfig): (r: string) {
    if cfg.name == "" then "sig1" else cfg.name
  }

  function DefaultComponents(m: Message): (r: seq<string>) {
    if m.isResponse then ["@status"] else ["@method", "@authority", "@path"]
  }

  /** The parameters a configuration stands for on this message. */
  function ParamsOf(s: Scheme, m: Message, cfg: SignConfig): (r: Params) {
    Params(if cfg.components == [] then DefaultComponents(m) else cfg.components,
           cfg.created, cfg.expires, s.keyID, s.alg, cfg.nonce, cfg.tag)
  }

  /** The two dictionary members that `Sign` returns. */
  datatype Signed = Signed(input: string, signature: string)

  function Sign(s: Scheme, m: Message, cfg: SignConfig): (r: Result<Signed, Error>) {
    var p := ParamsOf(s, m, cfg);
    match Base(s.codec, m, p)
    case Err(e) => Err(e)
    case Ok(base) =>
      match s.sign(base)
      case None => Err(InvalidSignature)
      case Some(sig) =>
        match Serialize(p)
        case Err(e) => Err(e)
        case Ok(text) => Ok(Signed(Member(NameOf(cfg), text), Member(NameOf(cfg), ByteSequence(s.codec.encode(sig)))))
  }

  /** `http.Header.Get`: the first value, or the empty string. */
  function Get(fields: Fields, name: string): (r: string) {
    if name in fields && fields[name] != [] then fields[name][0] else ""
  }

  function AppendHeader(fields: Fields, name: string, member: string): (r: Fields) {
    fields[name := [AppendMember(Get(fields, name), member)]]
  }

  /** The message after its signature was added. */
  function WithSignature(m: Message, signed: Signed): (r: Message) {
    m.(headers := AppendHeader(AppendHeader(m.headers, SIGNATURE_INPUT, signed.input), SIGNATURE, signed.signature))
  }

  /** A message whose headers are changed in place. */
  class LiveMessage {
    const fixed: Message
    var headers: Fields

    constructor (m: Message)
      ensures Value() == m
    {
      fixed := m;
      headers := m.headers;
    }

    function Value(): (m: Message)
      reads this
    {
      fixed.(headers := headers)
    }

    method Append(name: string, member: string)
      modifies this
      ensures headers == AppendHeader(old(headers), name, member)
    {
      var existing := Get(headers, name);
      if existing == "" {
        headers := headers[name := [member]];
      } else {
        headers := headers[name := [existing + ", " + member]];
      }
    }

    /** Adds a signature, or leaves the message alone and reports why there is none. */
    method SignInPlace(s: Scheme, cfg: SignConfig) returns (r: Result<(), Error>)
      modifies this
      ensures var signed := Sign(s, old(Value()), cfg);
              if signed.Ok? then r == Ok(()) && Value() == WithSignature(old(Value()), signed.value)
              else r == Err(signed.error) && Value() == old(Value())
    {
      var signed := Sign(s, Value(), cfg);
      if signed.Err? {
        return Err(signed.error);
      }
      Append(SIGNATURE_INPUT, signed.value.input);
      Append(SIGNATURE, signed.value.signature);
      return Ok(());
    }
  }

  // ---------------------------------------------------------------- verifying

  function DecodeByteSequence(codec: Codec, value: string): (r: Option<string>) {
    var v := TrimSpace(value);
    codec.decode(if |v| >= 2 && v[0] == ':' && v[|v| - 1] == ':' then v[1..|v| - 1] else v)
  }

  /** The names a signature covers, with and without their parameters. */
  function Covered(components: seq<string>): (r: set<string>) {
    if components == [] then {}
    else
      var rest := Covered(components[1..]);
      match Parse(components[0])
      case Err(_) => rest
      case Ok(c) => {c.serialized, c.name} + rest
  }

  /** The first required component that does not parse or is not covered decides. */
  function CheckRequired(covered: set<string>, required: seq<string>): (r: Result<(), Error>) {
    if required == [] then Ok(())
    else
      match Parse(required[0])
      case Err(e) => Err(e)
      case Ok(c) =>
        if c.serialized in covered || c.name in covered then CheckRequired(covered, required[1..])
        else Err(MissingComponent)
  }

  /** The member under the requested name, or under the first one when none is requested. */
  function TargetName(cfg: VerifyConfig, entries: seq<Entry>): (r: Option<string>) {
    if cfg.name != "" then Some(cfg.name) else if entries == [] then None else Some(entries[0].name)
  }

  /** One minute unless the configuration says otherwise. */
  function Skew(cfg: VerifyConfig): (r: int)
    ensures r > 0
  {
    if cfg.allowedSkew <= 0 then 60 * SECOND else cfg.allowedSkew
  }

  function CheckTime(cfg: VerifyConfig, created: int, expires: int): (r: Result<(), Error>) {
    if expires > 0 && cfg.now > expires * SECOND + Skew(cfg) then Err(SignatureExpired)
    else if created > 0 && created * SECOND > cfg.now + Skew(cfg) then Err(SignatureInFuture)
    else if created > 0 && cfg.maxAge > 0 && cfg.now - created * SECOND > cfg.maxAge + Skew(cfg) then
      Err(SignatureTooOld)
    else Ok(())
  }

  function CheckPolicy(s: Scheme, cfg: VerifyConfig, p: Params): (r: Result<(), Error>) {
    if p.alg != "" && p.alg != s.alg then Err(UnsupportedAlgorithm)
    else if p.keyID != "" && s.keyID != "" && p.keyID != s.keyID then Err(KeyMismatch)
    else if cfg.requiredTag != "" && p.tag != cfg.requiredTag then Err(InvalidSignature)
    else if CheckTime(cfg, p.created, p.expires).Err? then CheckTime(cfg, p.created, p.expires)
    else CheckRequired(Covered(p.components), cfg.required)
  }

  /** Everything `Verify` reads out of the two headers for one member. */
  function Located(m: Message, cfg: VerifyConfig): (r: Result<Entry, Error>) {
    var inputHeader, sigHeader := Get(m.headers, SIGNATURE_INPUT), Get(m.headers, SIGNATURE);
    if inputHeader == "" || sigHeader == "" then Err(MissingSignature)
    else
      match TargetName(cfg, Members(inputHeader))
      case None => Err(MissingSignature)
      case Some(name) =>
        var rawParams, rawSig := Lookup(Members(inputHeader), name), Lookup(Members(sigHeader), name);
        if rawParams == "" || rawSig == "" then Err(LabelMismatch) else Ok(Entry(rawParams, rawSig))
  }

  function Verify(s: Scheme, m: Message, cfg: VerifyConfig): (r: Result<Params, Error>) {
    match Located(m, cfg)
    case Err(e) => Err(e)
    case Ok(raw) =>
      match ParseText(raw.name)
      case Err(e) => Err(e)
      case Ok(p) =>
        match DecodeByteSequence(s.codec, raw.value)
        case None => Err(InvalidField)
        case Some(sig) =>
          match CheckPolicy(s, cfg, p)
          case Err(e) => Err(e)
          case Ok(_) =>
            match Base(s.codec, m, p)
            case Err(e) => Err(e)
            case Ok(base) => if s.check(base, sig) then Ok(p) else Err(InvalidSignature)
  }

  method FindValue(entries: seq<Entry>, name: string) returns (value: string)
    ensures value == Lookup(entries, name)
  {
    for i := 0 to |entries|
      invariant Lookup(entries[i..], name) == Lookup(entries, name)
    {
      if entries[i].name == name {
        return entries[i].value;
      }
      assert entries[i..][1..] == entries[i + 1..];
    }
    return "";
  }

  method CollectCovered(components: seq<string>) returns (covered: set<string>)
    ensures covered == Covered(components)
  {
    hide Parse;
    covered := {};
    for i := 0 to |components|
      invariant covered + Covered(components[i..]) == Covered(components)
    {
      assert components[i..][1..] == components[i + 1..];
      var c := ParseComponentIdentifier(components[i]);
      if c.Ok? {
        covered := covered + {c.value.serialized, c.value.name};
      }
    }
    assert components[|components|..] == [];
  }

  method FindMissing(covered: set<string>, required: seq<string>) returns (r: Result<(), Error>)
    ensures r == CheckRequired(covered, required)
  {
    hide Parse;
    for i := 0 to |required|
      invariant CheckRequired(covered, required[i..]) == CheckRequired(covered, required)
    {
      assert required[i..][1..] == required[i + 1..];
      var c := ParseComponentIdentifier(required[i]);
      if c.Err? {
        return Err(c.error);
      }
      if c.value.serialized !in covered && c.value.name !in covered {
        return Err(MissingComponent);
      }
    }
    return Ok(());
  }

  method ReadHeaders(m: Message, cfg: VerifyConfig) returns (r: Result<Entry, Error>)
    ensures r == Located(m, cfg)
  {
    hide Members, Lookup;
    var inputHeader, sigHeader := Get(m.headers, SIGNATURE_INPUT), Get(m.headers, SIGNATURE);
    if inputHeader == "" || sigHeader == "" {
      return Err(MissingSignature);
    }
    var inputEntries := ParseDictionaryMembers(inputHeader);
    var sigEntries := ParseDictionaryMembers(sigHeader);
    var target := cfg.name;
    if target == "" {
      if |inputEntries| == 0 {
        return Err(MissingSignature);
      }
      target := inputEntries[0].name;
    }
    var rawParams := FindValue(inputEntries, target);
    if rawParams == "" {
      return Err(LabelMismatch);
    }
    var rawSig := FindValue(sigEntries, target);
    if rawSig == "" {
      return Err(LabelMismatch);
    }
    return Ok(Entry(rawParams, rawSig));
  }

  method ApplyPolicy(s: Scheme, cfg: VerifyConfig, p: Params) returns (r: Result<(), Error>)
    ensures r == CheckPolicy(s, cfg, p)
  {
    hide Covered;
    if p.alg != "" && p.alg != s.alg {
      return Err(UnsupportedAlgorithm);
    }
    if p.keyID != "" && s.keyID != "" && p.keyID != s.keyID {
      return Err(KeyMismatch);
    }
    if cfg.requiredTag != "" && p.tag != cfg.requiredTag {
      return Err(InvalidSignature);
    }
    var time := CheckTime(cfg, p.created, p.expires);
    if time.Err? {
      return time;
    }
    if |cfg.required| > 0 {
      var covered := CollectCovered(p.components);
      r := FindMissing(covered, cfg.required);
    } else {
      r := Ok(());
    }
  }

  method VerifyMessage(s: Scheme, m: Message, cfg: VerifyConfig) returns (r: Result<Params, Error>)
    ensures r == Verify(s, m, cfg)
  {
    hide Located, ParseText, DecodeByteSequence, CheckPolicy, Base;
    var raw := ReadHeaders(m, cfg);
    if raw.Err? {
      return Err(raw.error);
    }
    var params := ParseSignatureParams(raw.value.name);
    if params.Err? {
      return params;
    }
    var sig := DecodeByteSequence(s.codec, raw.value.value);
    if sig.None? {
      return Err(InvalidField);
    }
    var policy := ApplyPolicy(s, cfg, params.value);
    if policy.Err? {
      return Err(policy.error);
    }
    var base := BuildSignatureBase(s.codec, m, params.value);
    if base.Err? {
      return Err(base.error);
    }
    if !s.check(base.value, sig.value) {
      return Err(InvalidSignature);
    }
    return params;
  }

  // ---------------------------------------------------------------- what a policy requires

  predicate SameName(component: string, required: string) {
    Parse(component).Ok? && Parse(required).Ok? && Parse(component).value.name == Parse(required).value.name
  }

  predicate SameForm(component: string, required: string) {
    Parse(component).Ok? && Parse(required).Ok? && Parse(component).value.serialized == Parse(required).value.serialized
  }

  /** Some component of the list has the required name. */
  predicate NameCovered(components: seq<string>, required: string) {
    exists i :: 0 <= i < |components| && SameName(components[i], required)
  }

  /** Some component of the list is the required one, with its own parameters. */
  predicate FormCovered(components: seq<string>, required: string) {
    exists i :: 0 <= i < |components| && SameForm(components[i], required)
  }

  predicate GivesText(component: string, text: string) {
    Parse(component).Ok? && (Parse(component).value.serialized == text || Parse(component).value.name == text)
  }

  lemma {:induction false} CoveredIff(components: seq<string>, text: string)
    ensures text in Covered(components) <==> exists i :: 0 <= i < |components| && GivesText(components[i], text)
  {
    hide Parse;
    if components != [] {
      CoveredIff(components[1..], text);
      if i :| 0 <= i < |components[1..]| && GivesText(components[1..][i], text) {
        assert GivesText(components[i + 1], text);
      }
      if i :| 0 <= i < |components| && GivesText(components[i], text) {
        assert i > 0 ==> GivesText(components[1..][i - 1], text);
      }
    }
  }

  /** A serialized form is never a name, and it determines the name. */
  lemma FormsAndNames(component: string, required: string)
    requires Parse(component).Ok? && Parse(required).Ok?
    ensures Parse(component).value.serialized != Parse(required).value.name
    ensures SameForm(component, required) ==> SameName(component, required)
  {
    var c, q := Parse(component).value, Parse(required).value;
    var ps := ParseShape(component, c);
    var qs := ParseShape(required, q);
    NameShape(component, c);
    NameShape(required, q);
    hide Parse;
    assert c.serialized[0] == '"';
    if c.serialized == q.serialized {
      SerializedDetermines(c.name, ps, q.name, qs);
    }
  }

  /** One requirement is met exactly when some covered component has its name. */
  lemma OneRequiredIff(components: seq<string>, required: string)
    requires Parse(required).Ok?
    ensures var q := Parse(required).value;
            q.serialized in Covered(components) || q.name in Covered(components) <==> NameCovered(components, required)
  {
    hide Parse;
    var q := Parse(required).value;
    CoveredIff(components, q.serialized);
    CoveredIff(components, q.name);
    forall i | 0 <= i < |components| && Parse(components[i]).Ok?
      ensures GivesText(components[i], q.serialized) ==> SameName(components[i], required)
      ensures GivesText(components[i], q.name) <==> SameName(components[i], required)
    {
      FormsAndNames(components[i], required);
      FormsAndNames(required, components[i]);
    }
  }

  /** The requirements of a policy are met exactly when each one parses and its name is covered; parameters play no
      part. */
  lemma {:induction false} RequiredIff(components: seq<string>, required: seq<string>)
    ensures CheckRequired(Covered(components), required).Ok? <==>
            forall r :: r in required ==> Parse(r).Ok? && NameCovered(components, r)
  {
    hide Parse, Covered, NameCovered;
    if required != [] {
      RequiredIff(components, required[1..]);
      if Parse(required[0]).Ok? {
        OneRequiredIff(components, required[0]);
      }
      assert required == [required[0]] + required[1..];
    }
  }

  /** Two identifiers have the same form exactly if they stand for the same component: same name, same parameters in
      the same order, and so the same flags and values. */
  lemma FormIff(component: string, required: string)
    requires Parse(component).Ok? && Parse(required).Ok?
    ensures SameForm(component, required) <==> Parse(component) == Parse(required)
  {
    var c, q := Parse(component).value, Parse(required).value;
    if c.serialized == q.serialized {
      var ps := ParseShape(component, c);
      var qs := ParseShape(required, q);
      NameShape(component, c);
      NameShape(required, q);
      hide Parse, ParseParams, Split, ParamsText;
      SerializedDetermines(c.name, ps, q.name, qs);
      ParamsRoundTrip(ps);
      ParamsRoundTrip(qs);
    }
  }

  /** A requirement that is met is covered in its own form exactly if, among the components of its name, one parses to
      the very component that is required. */
  lemma FormCoveredIff(components: seq<string>, required: string)
    requires Parse(required).Ok? && NameCovered(components, required)
    ensures FormCovered(components, required) <==>
            exists i :: 0 <= i < |components| && SameName(components[i], required)
              && Parse(components[i]) == Parse(required)
  {
    hide Parse;
    forall i | 0 <= i < |components| && Parse(components[i]).Ok?
      ensures SameForm(components[i], required) <==> Parse(components[i]) == Parse(required)
    {
      FormIff(components[i], required);
    }
  }

  /** No requirement insists on its parameters: for every identifier there is another one, with one more parameter,
      that meets it although it is not covered. */
  lemma ParametersNeverInsisted(required: string)
    requires Parse(required).Ok?
    ensures exists component ::
              CheckRequired(Covered([component]), [required]).Ok? && !FormCovered([component], required)
  {
    var c := Parse(required).value;
    var component := TrimSpace(required) + EXTRA;
    OneMoreParam(required, c);
    hide Parse, TrimSpace, Covered, CheckRequired;
    RequiredIff([component], [required]);
    assert SameName([component][0], required);
    assert NameCovered([component], required);
    assert |Parse(component).value.serialized| > |c.serialized|;
    assert !SameForm([component][0], required);
  }

  /** The identifier of the query parameter with this name. */
  function QueryParameter(v: string): (r: string) {
    Quoted("@query-param") + ParamsText([Assign("name", v)])
  }

  lemma QueryParameterParses(v: string)
    requires ';' !in v
    ensures Parse(QueryParameter(v)) == Ok(Meaning("@query-param", [Assign("name", v)]))
  {
    hide Parse, Meaning;
    var ps := [Assign("name", v)];
    assert Lower("name") == "name";
    assert Lower("@query-param") == "@query-param";
    assert AllCanonical(ps);
    hide Lower, Canonical;
    WrittenParses("@query-param", ps);
  }

  /** A policy that requires one query parameter is met by a signature over any other one. */
  lemma OtherQueryParameterAccepted(v: string, w: string)
    requires ';' !in v && ';' !in w && v != w
    ensures CheckRequired(Covered([QueryParameter(w)]), [QueryParameter(v)]).Ok?
    ensures !FormCovered([QueryParameter(w)], QueryParameter(v))
  {
    QueryParameterParses(v);
    QueryParameterParses(w);
    QueryParametersDiffer(v, w);
    hide Parse, Covered, CheckRequired, QueryParameter, ParamsText, LastValue;
    var components := [QueryParameter(w)];
    RequiredIff(components, [QueryParameter(v)]);
    assert SameName(components[0], QueryParameter(v));
    assert NameCovered(components, QueryParameter(v));
    assert !SameForm(components[0], QueryParameter(v));
  }

  lemma QueryParametersDiffer(v: string, w: string)
    requires v != w
    ensures ParamsText([Assign("name", v)]) != ParamsText([Assign("name", w)])
  {
    ParamsTextOne(v);
    ParamsTextOne(w);
    hide ParamsText;
    EnclosedDiffer([';'] + "name" + ['=', '"'], v, w, ['"']);
  }

  lemma ParamsTextOne(v: string)
    ensures ParamsText([Assign("name", v)]) == [';'] + "name" + ['=', '"'] + v + ['"']
  {
    assert [Assign("name", v)][1..] == [];
    assert ParamsText([Assign("name", v)]) == [';'] + ("name" + ['='] + Quoted(v)) + [];
  }

  lemma EnclosedDiffer(a: string, v: string, w: string, b: string)
    requires v != w
    ensures a + v + b != a + w + b
  {
    var s, t := a + v + b, a + w + b;
    assert s[|a|..|a| + |v|] == v && t[|a|..|a| + |w|] == w;
  }

  // ---------------------------------------------------------------- what acceptance means

  /** The label that is tried: the configured one, or the first in the Signature-Input header. */
  predicate Tried(cfg: VerifyConfig, entries: seq<Entry>, name: string) {
    if cfg.name != "" then name == cfg.name else entries != [] && name == entries[0].name
  }

  /** The first member under this name has this value. */
  predicate FirstUnder(entries: seq<Entry>, name: string, value: string) {
    exists i :: 0 <= i < |entries| && entries[i] == Entry(name, value)
      && forall j :: 0 <= j < i ==> entries[j].name != name
  }

  lemma {:induction false} LookupIff(entries: seq<Entry>, name: string, value: string)
    requires value != ""
    ensures Lookup(entries, name) == value <==> FirstUnder(entries, name, value)
  {
    if entries != [] {
      LookupIff(entries[1..], name, value);
      if entries[0].name == name {
        if FirstUnder(entries, name, value) {
          var i :| 0 <= i < |entries| && entries[i] == Entry(name, value)
                && forall j :: 0 <= j < i ==> entries[j].name != name;
          assert i == 0;
        }
      } else {
        FirstUnderSkips(entries, name, value);
      }
    }
  }

  lemma FirstUnderSkips(entries: seq<Entry>, name: string, value: string)
    requires entries != [] && entries[0].name != name
    ensures FirstUnder(entries, name, value) <==> FirstUnder(entries[1..], name, value)
  {
    var rest := entries[1..];
    if FirstUnder(entries, name, value) {
      var i :| 0 <= i < |entries| && entries[i] == Entry(name, value)
            && forall j :: 0 <= j < i ==> entries[j].name != name;
      assert rest[i - 1] == Entry(name, value);
      assert forall j :: 0 <= j < i - 1 ==> rest[j] == entries[j + 1];
    }
    if FirstUnder(rest, name, value) {
      var i :| 0 <= i < |rest| && rest[i] == Entry(name, value) && forall j :: 0 <= j < i ==> rest[j].name != name;
      assert entries[i + 1] == Entry(name, value);
      assert forall j :: 1 <= j < i + 1 ==> entries[j] == rest[j - 1];
    }
  }

  lemma NoMembers()
    ensures Members("") == []
  {
    assert SplitFrom(START, "", "") == [""] || SplitFrom(START, "", "") == [];
    TrimSpaceProperties("");
    assert ParseEntry("") == None;
  }

  /** Where the parameters and the signature come from. */
  lemma LocatedIff(m: Message, cfg: VerifyConfig, text: string, coded: string)
    ensures Located(m, cfg) == Ok(Entry(text, coded)) <==>
            && text != "" && coded != ""
            && exists name :: Tried(cfg, Inputs(m), name) && FirstUnder(Inputs(m), name, text)
                 && FirstUnder(Signatures(m), name, coded)
  {
    hide Members, Lookup, FirstUnder;
    NoMembers();
    EmptyHasNone();
    forall name | text != "" && coded != ""
      ensures Lookup(Inputs(m), name) == text <==> FirstUnder(Inputs(m), name, text)
      ensures Lookup(Signatures(m), name) == coded <==> FirstUnder(Signatures(m), name, coded)
    {
      LookupIff(Inputs(m), name, text);
      LookupIff(Signatures(m), name, coded);
    }
    var target := TargetName(cfg, Inputs(m));
    if target.Some? {
      assert Tried(cfg, Inputs(m), target.value);
    }
  }

  lemma EmptyHasNone()
    ensures forall name, value :: !FirstUnder([], name, value)
  {
  }

  /** The signature is neither expired, nor from the future, nor too old. */
  predicate InTime(cfg: VerifyConfig, p: Params) {
    && (p.expires > 0 ==> cfg.now <= p.expires * SECOND + Skew(cfg))
    && (p.created > 0 ==> p.created * SECOND <= cfg.now + Skew(cfg))
    && (p.created > 0 && cfg.maxAge > 0 ==> cfg.now <= p.created * SECOND + cfg.maxAge + Skew(cfg))
  }

  /** The parameters fit the key and the policy. */
  predicate Admitted(s: Scheme, cfg: VerifyConfig, p: Params) {
    && (p.alg == "" || p.alg == s.alg)
    && (p.keyID == "" || s.keyID == "" || p.keyID == s.keyID)
    && (cfg.requiredTag == "" || p.tag == cfg.requiredTag)
    && InTime(cfg, p)
    && forall r :: r in cfg.required ==> Parse(r).Ok? && NameCovered(p.components, r)
  }

  lemma PolicyIff(s: Scheme, cfg: VerifyConfig, p: Params)
    ensures CheckPolicy(s, cfg, p).Ok? <==> Admitted(s, cfg, p)
  {
    hide Covered, CheckRequired, Parse, NameCovered;
    RequiredIff(p.components, cfg.required);
  }

  /** Both headers hold the tried label: its parameters read as `p`, and the key accepts the bytes decoded from its
      signature for the base of this message under `p`. */
  predicate Proved(
    s: Scheme, m: Message, cfg: VerifyConfig, p: Params, name: string, text: string, coded: string, sig: string)
  {
    && Tried(cfg, Inputs(m), name) && text != "" && coded != ""
    && FirstUnder(Inputs(m), name, text) && FirstUnder(Signatures(m), name, coded)
    && ParseText(text) == Ok(p) && DecodeByteSequence(s.codec, coded) == Some(sig)
    && Base(s.codec, m, p).Ok? && s.check(Base(s.codec, m, p).value, sig)
  }

  /** Exactly what acceptance means: the parameters returned stand in the Signature-Input header under the tried label,
      the signature under the same label in the Signature header checks over the base of this message under them, and
      they are admitted. */
  lemma AcceptedIff(s: Scheme, m: Message, cfg: VerifyConfig, p: Params)
    ensures Verify(s, m, cfg) == Ok(p) <==>
            Admitted(s, cfg, p) && exists name, text, coded, sig :: Proved(s, m, cfg, p, name, text, coded, sig)
  {
    hide Located, ParseText, DecodeByteSequence, Base, CheckPolicy, Admitted, Inputs, Signatures, FirstUnder, Tried;
    PolicyIff(s, cfg, p);
    if Verify(s, m, cfg) == Ok(p) {
      AcceptedIsProved(s, m, cfg, p);
    }
    if Admitted(s, cfg, p) && exists name, text, coded, sig :: Proved(s, m, cfg, p, name, text, coded, sig) {
      var name, text, coded, sig :| Proved(s, m, cfg, p, name, text, coded, sig);
      LocatedIff(m, cfg, text, coded);
    }
  }

  lemma AcceptedIsProved(s: Scheme, m: Message, cfg: VerifyConfig, p: Params)
    requires Verify(s, m, cfg) == Ok(p)
    ensures exists name, text, coded, sig :: Proved(s, m, cfg, p, name, text, coded, sig)
    ensures CheckPolicy(s, cfg, p).Ok?
  {
    hide Located, ParseText, DecodeByteSequence, Base, CheckPolicy, Inputs, Signatures, FirstUnder, Tried;
    var raw := Located(m, cfg).value;
    LocatedIff(m, cfg, raw.name, raw.value);
    var name :| Tried(cfg, Inputs(m), name) && FirstUnder(Inputs(m), name, raw.name)
             && FirstUnder(Signatures(m), name, raw.value);
    var sig := DecodeByteSequence(s.codec, raw.value).value;
    assert Proved(s, m, cfg, p, name, raw.name, raw.value, sig);
  }

  // ---------------------------------------------------------------- well-formed configurations

  /** Base64 as a library provides it: its alphabet, and decoding what was encoded. */
  ghost predicate GoodCodec(codec: Codec) {
    forall x :: IsBase64(codec.encode(x)) && codec.decode(codec.encode(x)) == Some(x)
  }

  /** The identifier's name has no quote and its serialized form has none of the scanners' delimiters. */
  predicate GoodComponent(raw: string) {
    match Parse(raw)
    case Err(_) => false
    case Ok(c) =>
      && '"' !in c.name && Clean(c.serialized, false)
      && !ReadsSignature(c)
  }

  predicate GoodParams(p: Params) {
    && Fits(p) && QuoteFree(p)
    && forall i :: 0 <= i < |p.components| ==> GoodComponent(p.components[i])
  }

  predicate GoodConfig(s: Scheme, m: Message, cfg: SignConfig) {
    PlainLabel(NameOf(cfg)) && GoodParams(ParamsOf(s, m, cfg))
  }

  lemma NoParams()
    ensures ParseParams(Split("", ';')) == []
  {
    assert Split("", ';') == [""];
    assert TrimSpace("") == "";
    assert ParseParam("") == None;
  }

  /** Any name without delimiters is a good identifier, in whatever case it is written. */
  lemma PlainNameIsGood(n: string)
    requires n != "" && Trimmed(n) && ';' !in n && '"' !in n && ')' !in n
    requires Lower(n) != SIGNATURE && Lower(n) != SIGNATURE_INPUT
    ensures GoodComponent(n)
  {
    TrimSpaceProperties(n);
    NoParams();
    hide Split, ParseParams, TrimSpace, IndexOf, Clean;
    assert n[0] != '"';
    LowerKeeps(n, '"');
    LowerKeeps(n, ')');
    TameIsClean(Lower(n), []);
    assert Cut(n) == Some((n, ""));
  }

  lemma DefaultsArePlain(m: Message, i: nat)
    requires i < |DefaultComponents(m)|
    ensures var n := DefaultComponents(m)[i];
            && n != "" && Trimmed(n) && ';' !in n && '"' !in n && ')' !in n
            && Lower(n) != SIGNATURE && Lower(n) != SIGNATURE_INPUT
  {
    var n := DefaultComponents(m)[i];
    assert Lower(n)[0] == LowerChar('@') == '@';
    assert SIGNATURE[0] == 's' && SIGNATURE_INPUT[0] == 's';
  }

  /** The default label and components are good on every message. */
  lemma DefaultsAreGood(s: Scheme, m: Message, cfg: SignConfig)
    requires cfg.name == "" && cfg.components == []
    requires Fits(ParamsOf(s, m, cfg)) && QuoteFree(ParamsOf(s, m, cfg))
    ensures GoodConfig(s, m, cfg)
  {
    var p := ParamsOf(s, m, cfg);
    forall i | 0 <= i < |p.components|
      ensures GoodComponent(p.components[i])
    {
      hide GoodComponent;
      DefaultsArePlain(m, i);
      PlainNameIsGood(p.components[i]);
    }
    hide GoodComponent;
    assert NameOf(cfg) == "sig1";
  }

  // ---------------------------------------------------------------- the rebuilt base

  /** Every identifier reads the same as its serialized form. */
  lemma ReparsedList(components: seq<string>) returns (list: seq<string>)
    requires forall i :: 0 <= i < |components| ==> GoodComponent(components[i])
    ensures Serialized(components) == Ok(list) && AllClean(list)
    ensures ParseAll(list) == ParseAll(components)
    ensures Serialized(list) == Ok(list)
  {
    list := seq(|components|, i requires 0 <= i < |components| => Parse(components[i]).value.serialized);
    forall i | 0 <= i < |components|
      ensures SerializedForm(components[i]) == Ok(list[i]) && SerializedForm(list[i]) == Ok(list[i])
      ensures Parse(list[i]) == Parse(components[i])
      ensures Clean(list[i], false) && list[i] != [] && Trimmed(list[i])
    {
      ReparsedOne(components[i]);
    }
    CollectAll(SerializedForm, components, list);
    CollectAll(SerializedForm, list, list);
  }

  lemma ReparsedOne(raw: string)
    requires GoodComponent(raw)
    ensures var form := Parse(raw).value.serialized;
            && SerializedForm(raw) == Ok(form) && SerializedForm(form) == Ok(form) && Parse(form) == Parse(raw)
            && Clean(form, false) && form != [] && Trimmed(form)
  {
    var c := Parse(raw).value;
    ReparseIff(raw, c);
    var ps := ParseShape(raw, c);
    SerializedIsTrimmed(c.name, ps);
  }

  lemma NormalIsWrittenTheSame(list: seq<string>, p: Params)
    ensures Written(list, Normal(list, p)) == Written(list, p)
  {
    assert Items(Normal(list, p)) == Items(p);
  }

  /** The parameters read from the header give the same base as the ones that were configured, also after the
      signature headers changed. */
  lemma RebuiltBase(codec: Codec, m: Message, n: Message, p: Params) returns (list: seq<string>)
    requires GoodParams(p) && SameApartFromSignatures(m, n)
    ensures Serialized(p.components) == Ok(list) && Serialize(p) == Ok(Written(list, p)) && Solid(Written(list, p))
    ensures ParseText(Written(list, p)) == Ok(Normal(list, p))
    ensures Base(codec, n, Normal(list, p)) == Base(codec, m, p)
  {
    list := ReparsedList(p.components);
    WrittenIsSolid(list, p);
    ParamsTextRoundTrip(list, p);
    NormalIsWrittenTheSame(list, p);
    NoSignatureHeader(p.components);
    LinesUnaffected(codec, m, n, ParseAll(p.components), {});
  }

  lemma NoSignatureHeader(components: seq<string>)
    requires forall i :: 0 <= i < |components| ==> GoodComponent(components[i])
    ensures LeavesSignaturesOut(ParseAll(components))
  {
  }

  // ---------------------------------------------------------------- one signature

  /** The headers hold this signature under its name, and the base rebuilt from them is the base that was signed. */
  ghost predicate Holds(s: Scheme, m: Message, r: Record) {
    && HasLabel(Inputs(m), r.name) && HasLabel(Signatures(m), r.name)
    && Get(m.headers, SIGNATURE_INPUT) != "" && Get(m.headers, SIGNATURE) != ""
    && Lookup(Inputs(m), r.name) != "" && ParseText(Lookup(Inputs(m), r.name)) == Ok(r.params)
    && Lookup(Signatures(m), r.name) == ByteSequence(s.codec.encode(r.sig))
    && Base(s.codec, m, r.params) == Ok(r.base)
  }

  function Inputs(m: Message): (r: seq<Entry>) { Members(Get(m.headers, SIGNATURE_INPUT)) }

  function Signatures(m: Message): (r: seq<Entry>) { Members(Get(m.headers, SIGNATURE)) }

  predicate BalancedHeaders(m: Message) {
    Balanced(Get(m.headers, SIGNATURE_INPUT)) && Balanced(Get(m.headers, SIGNATURE))
  }

  /** No signature of that name is present yet. */
  predicate Fresh(m: Message, name: string) {
    !HasLabel(Inputs(m), name) && !HasLabel(Signatures(m), name)
  }

  /** The second message carries one more entry in each signature header and is otherwise the first. */
  ghost predicate Appended(m: Message, n: Message, input: Entry, signature: Entry) {
    && SameApartFromSignatures(m, n) && BalancedHeaders(n)
    && Get(n.headers, SIGNATURE_INPUT) != "" && Get(n.headers, SIGNATURE) != ""
    && Inputs(n) == Inputs(m) + [input] && Signatures(n) == Signatures(m) + [signature]
  }

  lemma AppendedHeaders(m: Message, name: string, text: string, b64: string)
    requires PlainLabel(name) && Solid(text) && IsBase64(b64) && BalancedHeaders(m)
    ensures Appended(m, WithSignature(m, Signed(Member(name, text), Member(name, ByteSequence(b64)))),
                     Entry(name, text), Entry(name, ByteSequence(b64)))
  {
    hide Members, Balanced, AppendMember, Solid, ByteSequence, Member;
    ByteSequenceIsSolid(b64);
    MembersAppend(Get(m.headers, SIGNATURE_INPUT), name, text);
    MembersAppend(Get(m.headers, SIGNATURE), name, ByteSequence(b64));
    assert SIGNATURE != SIGNATURE_INPUT;
  }

  /** What signing with a good configuration writes. */
  lemma SignWrites(s: Scheme, m: Message, cfg: SignConfig) returns (list: seq<string>)
    requires GoodCodec(s.codec) && GoodConfig(s, m, cfg) && BalancedHeaders(m) && Sign(s, m, cfg).Ok?
    ensures var q := ParamsOf(s, m, cfg);
            && Serialized(q.components) == Ok(list) && Base(s.codec, m, q).Ok?
            && var sig := s.sign(Base(s.codec, m, q).value);
            && sig.Some?
            && Sign(s, m, cfg) == Ok(Signed(Member(NameOf(cfg), Written(list, q)),
                                            Member(NameOf(cfg), ByteSequence(s.codec.encode(sig.value)))))
            && Appended(m, WithSignature(m, Sign(s, m, cfg).value),
                        Entry(NameOf(cfg), Written(list, q)),
                        Entry(NameOf(cfg), ByteSequence(s.codec.encode(sig.value))))
  {
    hide Base, Written, Appended, BalancedHeaders, GoodParams, ByteSequence, Solid, Serialized, ParseText, Member;
    var q := ParamsOf(s, m, cfg);
    list := RebuiltBase(s.codec, m, m, q);
    var sig := s.sign(Base(s.codec, m, q).value).value;
    AppendedHeaders(m, NameOf(cfg), Written(list, q), s.codec.encode(sig));
  }

  /** The parameters, base and signature value of one signing. */
  datatype Record = Record(name: string, params: Params, base: string, sig: string)

  /** What signing on `m` with this configuration puts on record. */
  ghost predicate IsRecord(s: Scheme, m: Message, cfg: SignConfig, r: Record) {
    var q := ParamsOf(s, m, cfg);
    && r.name == NameOf(cfg)
    && Serialized(q.components) == Ok(r.params.components) && r.params == Normal(r.params.components, q)
    && Base(s.codec, m, q) == Ok(r.base)
    && s.sign(r.base) == Some(r.sig)
  }

  /** Signing establishes the signature in the headers, behind whatever signatures were there. */
  lemma SignEstablishes(s: Scheme, m: Message, cfg: SignConfig) returns (r: Record)
    requires GoodCodec(s.codec) && GoodConfig(s, m, cfg) && BalancedHeaders(m) && Sign(s, m, cfg).Ok?
    ensures IsRecord(s, m, cfg, r) && GoodNormal(r.params)
    ensures Fresh(m, NameOf(cfg)) ==> Holds(s, WithSignature(m, Sign(s, m, cfg).value), r)
  {
    hide Base, Written, BalancedHeaders, GoodParams, ByteSequence, Sign, WithSignature, Members, Lookup, HasLabel,
         ParseText, SameApartFromSignatures, Serialized, LeavesSignaturesOut;
    var q := ParamsOf(s, m, cfg);
    var list := SignWrites(s, m, cfg);
    var base := Base(s.codec, m, q).value;
    var sig := s.sign(base).value;
    r := Record(NameOf(cfg), Normal(list, q), base, sig);
    var n := WithSignature(m, Sign(s, m, cfg).value);
    var again := RebuiltBase(s.codec, m, n, q);
    assert again == list;
    if Fresh(m, r.name) {
      NewestFound(Inputs(m), r.name, Written(list, q));
      NewestFound(Signatures(m), r.name, ByteSequence(s.codec.encode(sig)));
    }
    NormalIsGood(list, q);
  }

  /** Under a label that a header already holds, nothing that is appended is ever found. */
  lemma OldestFound(entries: seq<Entry>, name: string, value: string)
    ensures Lookup(entries + [Entry(name, value)], name) ==
            if HasLabel(entries, name) then Lookup(entries, name) else value
  {
    LookupConcat(entries, [Entry(name, value)], name);
  }

  /** Signing under a label that is taken adds members that no verifier finds: in each header the label stands for what
      it stood for before, and the new pair is found exactly if each header did not have the label or had the same value
      under it. */
  lemma TakenLabel(s: Scheme, m: Message, cfg: SignConfig) returns (text: string, coded: string)
    requires GoodCodec(s.codec) && GoodConfig(s, m, cfg) && BalancedHeaders(m) && Sign(s, m, cfg).Ok?
    ensures Sign(s, m, cfg) == Ok(Signed(Member(NameOf(cfg), text), Member(NameOf(cfg), coded)))
    ensures var n, name := WithSignature(m, Sign(s, m, cfg).value), NameOf(cfg);
            && (HasLabel(Inputs(m), name) ==> Lookup(Inputs(n), name) == Lookup(Inputs(m), name))
            && (HasLabel(Signatures(m), name) ==> Lookup(Signatures(n), name) == Lookup(Signatures(m), name))
            && (Lookup(Inputs(n), name) == text && Lookup(Signatures(n), name) == coded <==>
                && (HasLabel(Inputs(m), name) ==> Lookup(Inputs(m), name) == text)
                && (HasLabel(Signatures(m), name) ==> Lookup(Signatures(m), name) == coded))
  {
    hide GoodCodec, GoodConfig, BalancedHeaders, Sign, WithSignature, Inputs, Signatures, NameOf, Member, Lookup,
         HasLabel, Written, ByteSequence, Serialized, Base;
    var list := SignWrites(s, m, cfg);
    var q := ParamsOf(s, m, cfg);
    text := Written(list, q);
    coded := ByteSequence(s.codec.encode(s.sign(Base(s.codec, m, q).value).value));
    OldestFound(Inputs(m), NameOf(cfg), text);
    OldestFound(Signatures(m), NameOf(cfg), coded);
  }

  /** So a verifier that is given the label reads exactly what it read before. */
  lemma TakenLabelReadsOld(s: Scheme, m: Message, cfg: SignConfig, policy: VerifyConfig)
    requires GoodCodec(s.codec) && GoodConfig(s, m, cfg) && BalancedHeaders(m) && Sign(s, m, cfg).Ok?
    requires policy.name == NameOf(cfg) && HasLabel(Inputs(m), policy.name) && HasLabel(Signatures(m), policy.name)
    ensures Located(WithSignature(m, Sign(s, m, cfg).value), policy) == Located(m, policy)
  {
    hide GoodCodec, GoodConfig, BalancedHeaders, Sign, WithSignature, Inputs, Signatures, NameOf, Member, Lookup,
         HasLabel, Written, ByteSequence, Serialized, Base, Located, PlainLabel;
    var text, coded := TakenLabel(s, m, cfg);
    var list := SignWrites(s, m, cfg);
    GoodNameNotEmpty(s, m, cfg);
    SameReading(m, WithSignature(m, Sign(s, m, cfg).value), policy);
  }

  lemma GoodNameNotEmpty(s: Scheme, m: Message, cfg: SignConfig)
    requires GoodConfig(s, m, cfg)
    ensures NameOf(cfg) != ""
  {
  }

  lemma SameReading(m: Message, n: Message, policy: VerifyConfig)
    requires policy.name != "" && HasLabel(Inputs(m), policy.name) && HasLabel(Signatures(m), policy.name)
    requires Get(n.headers, SIGNATURE_INPUT) != "" && Get(n.headers, SIGNATURE) != ""
    requires Lookup(Inputs(n), policy.name) == Lookup(Inputs(m), policy.name)
    requires Lookup(Signatures(n), policy.name) == Lookup(Signatures(m), policy.name)
    ensures Located(n, policy) == Located(m, policy)
  {
    NoMembers();
    hide Members, Lookup;
  }

  /** Two signings of an unsigned message under the default label, at different times: whoever asks for the label reads
      the first signature, and never the second. */
  lemma SecondDefaultLost(s: Scheme, m: Message, cfg: SignConfig, created: int, policy: VerifyConfig)
    requires GoodCodec(s.codec) && GoodConfig(s, m, cfg) && BalancedHeaders(m) && Inputs(m) == [] && Signatures(m) == []
    requires cfg.name == "" && policy.name == "sig1" && cfg.created > 0 && created > 0 && cfg.created != created
    requires Sign(s, m, cfg).Ok?
    requires var n := WithSignature(m, Sign(s, m, cfg).value);
             var again := cfg.(created := created);
             GoodConfig(s, n, again) && Sign(s, n, again).Ok?
    ensures var n := WithSignature(m, Sign(s, m, cfg).value);
            var twice := WithSignature(n, Sign(s, n, cfg.(created := created)).value);
            && Located(twice, policy) == Located(n, policy) && Located(n, policy).Ok?
            && ParseText(Located(twice, policy).value.name).Ok?
            && ParseText(Located(twice, policy).value.name).value.created == cfg.created
  {
    var n := WithSignature(m, Sign(s, m, cfg).value);
    assert NameOf(cfg) == "sig1";
    assert Fresh(m, "sig1");
    hide GoodCodec, GoodConfig, BalancedHeaders, Sign, WithSignature, Inputs, Signatures, Lookup, HasLabel, Written,
         ByteSequence, Serialized, Base, Located, Fresh, ParseText, GoodNormal, Member, PlainLabel;
    var r := SignEstablishes(s, m, cfg);
    var list := SignWrites(s, m, cfg);
    HeldLabel(s, n, r);
    LocatedHeld(s, n, policy, r);
    TakenLabelReadsOld(s, n, cfg.(created := created), policy);
  }

  lemma HeldLabel(s: Scheme, m: Message, r: Record)
    requires Holds(s, m, r)
    ensures HasLabel(Inputs(m), r.name) && HasLabel(Signatures(m), r.name)
  {
  }

  lemma NewestFound(entries: seq<Entry>, name: string, value: string)
    requires !HasLabel(entries, name)
    ensures var all := entries + [Entry(name, value)]; HasLabel(all, name) && Lookup(all, name) == value
  {
    LookupConcat(entries, [Entry(name, value)], name);
    assert (entries + [Entry(name, value)])[|entries|].name == name;
  }

  /** The normalized parameters cover no signature header either. */
  ghost predicate GoodNormal(p: Params) {
    LeavesSignaturesOut(ParseAll(p.components))
  }

  lemma NormalIsGood(list: seq<string>, q: Params)
    requires GoodParams(q) && Serialized(q.components) == Ok(list)
    ensures GoodNormal(Normal(list, q))
  {
    var again := ReparsedList(q.components);
    NoSignatureHeader(q.components);
  }

  /** A later signature, under whatever name and by whatever key, disturbs nothing. */
  lemma AppendedPreserves(s: Scheme, m: Message, n: Message, input: Entry, signature: Entry, r: Record)
    requires Appended(m, n, input, signature) && Holds(s, m, r) && GoodNormal(r.params)
    ensures Holds(s, n, r)
  {
    OlderFound(Inputs(m), input, r.name);
    OlderFound(Signatures(m), signature, r.name);
    LinesUnaffected(s.codec, m, n, ParseAll(r.params.components), {});
  }

  lemma OlderFound(entries: seq<Entry>, e: Entry, name: string)
    requires HasLabel(entries, name)
    ensures HasLabel(entries + [e], name) && Lookup(entries + [e], name) == Lookup(entries, name)
  {
    LookupConcat(entries, [e], name);
    var i :| 0 <= i < |entries| && entries[i].name == name;
    assert (entries + [e])[i].name == name;
  }

  lemma AppendedFresh(m: Message, n: Message, input: Entry, signature: Entry, name: string)
    requires Appended(m, n, input, signature) && input.name != name && signature.name != name && Fresh(m, name)
    ensures Fresh(n, name)
  {
    assert forall i :: 0 <= i < |Inputs(m)| ==> (Inputs(m) + [input])[i] == Inputs(m)[i];
    assert forall i :: 0 <= i < |Signatures(m)| ==> (Signatures(m) + [signature])[i] == Signatures(m)[i];
  }

  lemma DecodeOwn(codec: Codec, sig: string)
    requires GoodCodec(codec)
    ensures DecodeByteSequence(codec, ByteSequence(codec.encode(sig))) == Some(sig)
  {
    var b64 := codec.encode(sig);
    TrimSpaceProperties(ByteSequence(b64));
    assert ByteSequence(b64)[1..|b64| + 1] == b64;
  }

  /** A signature written without the colons is read as well. */
  lemma DecodeBare(codec: Codec, sig: string)
    requires GoodCodec(codec)
    ensures DecodeByteSequence(codec, codec.encode(sig)) == Some(sig)
  {
    var b64 := codec.encode(sig);
    TrimSpaceProperties(b64);
    assert b64 != [] ==> b64[0] in b64 && b64[|b64| - 1] in b64;
  }

  lemma LocatedHeld(s: Scheme, m: Message, cfg: VerifyConfig, r: Record)
    requires cfg.name != "" && cfg.name == r.name && Holds(s, m, r)
    ensures Located(m, cfg).Ok? && ParseText(Located(m, cfg).value.name) == Ok(r.params)
    ensures Located(m, cfg).value.value == ByteSequence(s.codec.encode(r.sig))
  {
    hide Members, Lookup, ParseText, Base, HasLabel;
    assert ByteSequence(s.codec.encode(r.sig)) != "";
  }

  /** What the headers hold under a name verifies, if the policy admits it and the key accepts its own signature. */
  lemma HeldVerifies(s: Scheme, m: Message, cfg: VerifyConfig, r: Record)
    requires GoodCodec(s.codec) && cfg.name != "" && cfg.name == r.name && Holds(s, m, r)
    requires CheckPolicy(s, cfg, r.params).Ok? && s.check(r.base, r.sig)
    ensures Verify(s, m, cfg) == Ok(r.params)
  {
    DecodeOwn(s.codec, r.sig);
    LocatedHeld(s, m, cfg, r);
  }

  // ---------------------------------------------------------------- any number of signatures

  /** One signing: a key and a configuration. */
  datatype Signing = Signing(scheme: Scheme, config: SignConfig)

  /** The message after signing with each in turn. */
  function SignAll(m: Message, signings: seq<Signing>): (r: Result<Message, Error>) {
    if signings == [] then Ok(m)
    else
      var last := signings[|signings| - 1];
      match SignAll(m, signings[..|signings| - 1])
      case Err(e) => Err(e)
      case Ok(before) =>
        match Sign(last.scheme, before, last.config)
        case Err(e) => Err(e)
        case Ok(signed) => Ok(WithSignature(before, signed))
  }

  /** Good keys and configurations, under any names. */
  ghost predicate GoodSignings(m: Message, signings: seq<Signing>) {
    forall i :: 0 <= i < |signings| ==>
      GoodCodec(signings[i].scheme.codec) && GoodConfig(signings[i].scheme, m, signings[i].config)
  }

  /** No signature was there before under the name of this signing. */
  predicate First(m: Message, signings: seq<Signing>, i: nat)
    requires i < |signings|
  {
    && Fresh(m, NameOf(signings[i].config))
    && forall j :: 0 <= j < i ==> NameOf(signings[j].config) != NameOf(signings[i].config)
  }

  /** A configuration means the same on messages that differ only in their signature headers. */
  lemma SameMeaning(s: Scheme, m: Message, n: Message, cfg: SignConfig, r: Record)
    requires SameApartFromSignatures(m, n) && GoodConfig(s, m, cfg)
    ensures GoodConfig(s, n, cfg)
    ensures IsRecord(s, n, cfg, r) <==> IsRecord(s, m, cfg, r)
  {
    var q := ParamsOf(s, m, cfg);
    NoSignatureHeader(q.components);
    LinesUnaffected(s.codec, m, n, ParseAll(q.components), {});
  }

  lemma ApartReflexive(m: Message)
    ensures SameApartFromSignatures(m, m)
  {
  }

  lemma ApartTransitive(a: Message, b: Message, c: Message)
    requires SameApartFromSignatures(a, b) && SameApartFromSignatures(b, c)
    ensures SameApartFromSignatures(a, c)
  {
  }

  /** After any number of signings, under any names, the first signature under each name is in the headers as it was
      made: what a verifier parses and rebuilds for that name is exactly what its signer signed. */
  lemma {:induction false} EverySignatureHolds(m: Message, signings: seq<Signing>, n: Message)
    returns (records: seq<Record>)
    requires GoodSignings(m, signings) && BalancedHeaders(m) && SignAll(m, signings) == Ok(n)
    ensures SameApartFromSignatures(m, n) && BalancedHeaders(n)
    ensures |records| == |signings|
    ensures forall i :: 0 <= i < |signings| ==>
              && IsRecord(signings[i].scheme, m, signings[i].config, records[i])
              && records[i].name == NameOf(signings[i].config) && GoodNormal(records[i].params)
              && (First(m, signings, i) ==> Holds(signings[i].scheme, n, records[i]))
    ensures forall name ::
              Fresh(m, name) && (forall i :: 0 <= i < |signings| ==> NameOf(signings[i].config) != name) ==>
                Fresh(n, name)
  {
    ApartReflexive(m);
    hide GoodCodec, GoodConfig, Fresh, SameApartFromSignatures, BalancedHeaders, Sign, IsRecord, Holds, GoodNormal,
         WithSignature, NameOf;
    if signings == [] {
      records := [];
    } else {
      var k := |signings| - 1;
      var last := signings[k];
      var before := SignAll(m, signings[..k]).value;
      records := EverySignatureHolds(m, signings[..k], before);
      var r := OneMore(m, before, n, last);
      forall i | 0 <= i < k && First(m, signings, i)
        ensures Holds(signings[i].scheme, n, records[i])
      {
        assert signings[..k][i] == signings[i] && First(m, signings[..k], i);
        StillHolds(before, n, last, signings[i].scheme, records[i]);
      }
      if First(m, signings, k) {
        assert forall i :: 0 <= i < k ==> signings[..k][i] == signings[i];
        assert Fresh(before, NameOf(last.config));
      }
      forall name | Fresh(m, name) && (forall i :: 0 <= i < |signings| ==> NameOf(signings[i].config) != name)
        ensures Fresh(n, name)
      {
        assert forall i :: 0 <= i < k ==> signings[..k][i] == signings[i];
        StillFresh(before, n, last, name);
      }
      records := records + [r];
    }
  }

  ghost predicate Signs(m: Message, n: Message, g: Signing) {
    && GoodCodec(g.scheme.codec) && GoodConfig(g.scheme, m, g.config) && BalancedHeaders(m)
    && Sign(g.scheme, m, g.config).Ok? && n == WithSignature(m, Sign(g.scheme, m, g.config).value)
  }

  lemma OneMore(m: Message, before: Message, n: Message, g: Signing) returns (r: Record)
    requires SameApartFromSignatures(m, before) && BalancedHeaders(before)
    requires GoodCodec(g.scheme.codec) && GoodConfig(g.scheme, m, g.config)
    requires Sign(g.scheme, before, g.config).Ok? && n == WithSignature(before, Sign(g.scheme, before, g.config).value)
    ensures IsRecord(g.scheme, m, g.config, r) && r.name == NameOf(g.config)
    ensures GoodNormal(r.params) && (Fresh(before, NameOf(g.config)) ==> Holds(g.scheme, n, r))
    ensures Signs(before, n, g) && SameApartFromSignatures(m, n) && BalancedHeaders(n)
  {
    SameMeaning(g.scheme, m, before, g.config, Record("", Bare([]), "", ""));
    r := SignEstablishes(g.scheme, before, g.config);
    SameMeaning(g.scheme, m, before, g.config, r);
    var list := SignWrites(g.scheme, before, g.config);
    ApartTransitive(m, before, n);
  }

  lemma StillHolds(m: Message, n: Message, g: Signing, s: Scheme, r: Record)
    requires Signs(m, n, g) && Holds(s, m, r) && GoodNormal(r.params)
    ensures Holds(s, n, r)
  {
    var list := SignWrites(g.scheme, m, g.config);
    var q := ParamsOf(g.scheme, m, g.config);
    var sig := g.scheme.sign(Base(g.scheme.codec, m, q).value).value;
    AppendedPreserves(s, m, n, Entry(NameOf(g.config), Written(list, q)),
                      Entry(NameOf(g.config), ByteSequence(g.scheme.codec.encode(sig))), r);
  }

  lemma StillFresh(m: Message, n: Message, g: Signing, name: string)
    requires Signs(m, n, g) && name != NameOf(g.config) && Fresh(m, name)
    ensures Fresh(n, name)
  {
    var list := SignWrites(g.scheme, m, g.config);
    var q := ParamsOf(g.scheme, m, g.config);
    var sig := g.scheme.sign(Base(g.scheme.codec, m, q).value).value;
    AppendedFresh(m, n, Entry(NameOf(g.config), Written(list, q)),
                  Entry(NameOf(g.config), ByteSequence(g.scheme.codec.encode(sig))), name);
  }

  // ---------------------------------------------------------------- verification succeeds

  /** A key that accepts its own signatures. */
  ghost predicate GoodScheme(s: Scheme) {
    GoodCodec(s.codec) && forall base, sig :: s.sign(base) == Some(sig) ==> s.check(base, sig)
  }

  lemma {:induction false} CoveredHas(components: seq<string>, i: nat)
    requires i < |components| && Parse(components[i]).Ok?
    ensures Parse(components[i]).value.serialized in Covered(components)
  {
    if i > 0 {
      CoveredHas(components[1..], i - 1);
    }
  }

  /** Requiring only what was configured is satisfied by the normalized list. */
  lemma {:induction false} RequiredIsCovered(components: seq<string>, list: seq<string>, required: seq<string>)
    requires ParseAll(list) == ParseAll(components)
    requires forall i :: 0 <= i < |components| ==> Parse(components[i]).Ok?
    requires forall r :: r in required ==> r in components
    ensures CheckRequired(Covered(list), required).Ok?
  {
    hide Parse, Covered;
    if required != [] {
      assert required[0] in required;
      var j :| 0 <= j < |components| && components[j] == required[0];
      assert ParseAll(list)[j] == ParseAll(components)[j];
      CoveredHas(list, j);
      RequiredIsCovered(components, list, required[1..]);
    }
  }

  /** What a verifier may ask of a signature that was made with this configuration. */
  predicate PolicyAdmits(s: Scheme, m: Message, cfg: SignConfig, policy: VerifyConfig) {
    && (policy.requiredTag == "" || policy.requiredTag == cfg.tag)
    && CheckTime(policy, cfg.created, cfg.expires).Ok?
    && forall r :: r in policy.required ==> r in ParamsOf(s, m, cfg).components
  }

  lemma PolicyAccepts(s: Scheme, m: Message, cfg: SignConfig, policy: VerifyConfig, r: Record)
    requires GoodConfig(s, m, cfg) && PolicyAdmits(s, m, cfg, policy) && IsRecord(s, m, cfg, r)
    ensures CheckPolicy(s, policy, r.params).Ok?
  {
    hide Parse, Base, Covered, CheckRequired, Clean;
    var q := ParamsOf(s, m, cfg);
    var list := ReparsedList(q.components);
    RequiredIsCovered(q.components, list, policy.required);
  }

  /** Signing appends to the Signature-Input members, in the order of the signings. */
  lemma {:induction false} MembersInOrder(m: Message, signings: seq<Signing>, n: Message)
    requires GoodSignings(m, signings) && BalancedHeaders(m) && SignAll(m, signings) == Ok(n)
    ensures Inputs(m) <= Inputs(n) && |Inputs(n)| == |Inputs(m)| + |signings|
    ensures forall i :: 0 <= i < |signings| ==> Inputs(n)[|Inputs(m)| + i].name == NameOf(signings[i].config)
    decreases |signings|
  {
    hide *;
    if signings == [] {
      NothingSigned(m, signings);
    } else {
      var k := |signings| - 1;
      LastMember(m, signings, n);
      var before := SignAll(m, signings[..k]).value;
      MembersInOrder(m, signings[..k], before);
      forall i | 0 <= i < |signings|
        ensures Inputs(n)[|Inputs(m)| + i].name == NameOf(signings[i].config)
      {
        if i < k {
          assert signings[..k][i] == signings[i];
          assert Inputs(n)[|Inputs(m)| + i] == Inputs(before)[|Inputs(m)| + i];
        }
      }
    }
  }

  lemma NothingSigned(m: Message, signings: seq<Signing>)
    requires signings == []
    ensures SignAll(m, signings) == Ok(m)
  {
  }

  lemma LastMember(m: Message, signings: seq<Signing>, n: Message)
    requires signings != []
    requires GoodSignings(m, signings) && BalancedHeaders(m) && SignAll(m, signings) == Ok(n)
    ensures var k := |signings| - 1;
            && GoodSignings(m, signings[..k]) && SignAll(m, signings[..k]).Ok?
            && var before := SignAll(m, signings[..k]).value;
            && Inputs(before) <= Inputs(n) && |Inputs(n)| == |Inputs(before)| + 1
            && Inputs(n)[|Inputs(before)|].name == NameOf(signings[k].config)
  {
    hide GoodCodec, GoodConfig, Fresh, SameApartFromSignatures, BalancedHeaders, Sign, IsRecord, Holds, GoodNormal,
         WithSignature, NameOf, Inputs;
    var k := |signings| - 1;
    var last := signings[k];
    var before := SignAll(m, signings[..k]).value;
    var records := EverySignatureHolds(m, signings[..k], before);
    assert forall i :: 0 <= i < k ==> signings[..k][i] == signings[i];
    var r := OneMore(m, before, n, last);
    OneMember(before, n, last);
  }

  lemma OneMember(m: Message, n: Message, g: Signing)
    requires Signs(m, n, g)
    ensures Inputs(m) <= Inputs(n) && |Inputs(n)| == |Inputs(m)| + 1 && Inputs(n)[|Inputs(m)|].name == NameOf(g.config)
  {
    hide GoodCodec, GoodConfig, BalancedHeaders, Sign, WithSignature, Inputs, NameOf;
    var list := SignWrites(g.scheme, m, g.config);
  }

  /** Without a label the verifier does what it does with the first label of the Signature-Input header. */
  lemma DefaultLabel(s: Scheme, m: Message, policy: VerifyConfig)
    requires policy.name == "" && Inputs(m) != []
    ensures Verify(s, m, policy) == Verify(s, m, policy.(name := Inputs(m)[0].name))
  {
    hide Members, Lookup, ParseText, DecodeByteSequence, Base, Covered, CheckRequired;
    var named := policy.(name := Inputs(m)[0].name);
    assert Located(m, policy) == Located(m, named);
    hide Located;
    forall p: Params
      ensures CheckPolicy(s, policy, p) == CheckPolicy(s, named, p)
    {
    }
    hide CheckPolicy;
  }

  /** The policy names this signature, or names none and this is the first signature of all. */
  predicate Selects(m: Message, signings: seq<Signing>, i: nat, policy: VerifyConfig)
    requires i < |signings|
  {
    policy.name == NameOf(signings[i].config) || (policy.name == "" && i == 0 && Inputs(m) == [])
  }

  /** On a message signed any number of times, by any keys and under any names, the first signature under each name
      verifies when it is selected, and the verifier reports the parameters that were configured. */
  lemma EverySignatureVerifies(m: Message, signings: seq<Signing>, n: Message, i: nat, policy: VerifyConfig)
    requires GoodSignings(m, signings) && BalancedHeaders(m) && SignAll(m, signings) == Ok(n)
    requires i < |signings| && First(m, signings, i)
    requires GoodScheme(signings[i].scheme) && Selects(m, signings, i, policy)
    requires PolicyAdmits(signings[i].scheme, m, signings[i].config, policy)
    ensures var p := ParamsOf(signings[i].scheme, m, signings[i].config);
            && Serialized(p.components).Ok?
            && Verify(signings[i].scheme, n, policy) == Ok(Normal(Serialized(p.components).value, p))
  {
    hide Holds, GoodCodec, SignAll, Verify, CheckPolicy, Serialized, BalancedHeaders, Fresh, GoodParams, Inputs;
    var named := policy.(name := NameOf(signings[i].config));
    var records := EverySignatureHolds(m, signings, n);
    PolicyAccepts(signings[i].scheme, m, signings[i].config, named, records[i]);
    HeldVerifies(signings[i].scheme, n, named, records[i]);
    if policy.name == "" {
      MembersInOrder(m, signings, n);
      DefaultLabel(signings[i].scheme, n, policy);
    }
  }

  /** On a message that was signed before, a verifier without a label tries the oldest signature, however many were
      added since. */
  lemma DefaultTriesOldest(m: Message, signings: seq<Signing>, n: Message, s: Scheme, policy: VerifyConfig)
    requires GoodSignings(m, signings) && BalancedHeaders(m) && SignAll(m, signings) == Ok(n)
    requires policy.name == "" && Inputs(m) != []
    ensures Verify(s, n, policy) == Verify(s, n, policy.(name := Inputs(m)[0].name))
  {
    hide Verify, Inputs;
    MembersInOrder(m, signings, n);
    DefaultLabel(s, n, policy);
  }
}
