/** The value checks of back/security.py: `sanitize_input`, `sanitize_username`,
    `sanitize_password`, `needs_rehash` and `get_client_ip`. */
module Security {
  import opened Wrappers
  import opened Text

  /** The status of every rejection these checks raise. */
  const BadRequest: int := 400

  /** The default `max_len` of `sanitize_input`. */
  const DefaultMaxLen: int := 1000

  const MaxUsername: nat := 50
  const MinUsername: nat := 3
  const MinPassword: nat := 6
  const MaxPassword: nat := 128

  /** The address returned when neither a usable forwarded address nor a
      client is known. */
  const UnknownIp: string := "0.0.0.0"

  // ------------------------------------------------------- sanitize_input

  /** The class `[\x01-\x08\x0b\x0c\x0e-\x1f\x7f]`: the C0 controls other
      than tab, line feed and carriage return, and DEL. */
  predicate IsControl(c: char)
  {
    ('\U{0001}' <= c <= '\U{0008}') || c == '\U{000B}' || c == '\U{000C}' ||
    ('\U{000E}' <= c <= '\U{001F}') || c == '\U{007F}'
  }

  /** `s.replace('\x00', '')`. */
  function DropNul(s: string): (r: string)
    ensures |r| <= |s|
    ensures forall k :: 0 <= k < |r| ==> r[k] != '\U{0000}' && r[k] in s
  {
    if s == [] then []
    else (if s[0] == '\U{0000}' then [] else [s[0]]) + DropNul(s[1..])
  }

  /** `re.sub(r'[\x01-\x08\x0b\x0c\x0e-\x1f\x7f]', '', s)`. */
  function DropControls(s: string): (r: string)
    ensures |r| <= |s|
    ensures forall k :: 0 <= k < |r| ==> !IsControl(r[k]) && r[k] in s
  {
    if s == [] then []
    else (if IsControl(s[0]) then [] else [s[0]]) + DropControls(s[1..])
  }

  /** The text the dangerous patterns are searched in: the first `max_len`
      characters without NUL and control characters. */
  function Scrubbed(text: string, maxLen: int): string
  {
    DropControls(DropNul(Take(text, maxLen)))
  }

  /** `sanitize_input(text, max_len)`. `dangerous(t)` stands for "some entry
      of DANGEROUS_PATTERNS is found in `t.lower()`, ignoring case". */
  function SanitizeInput(text: string, maxLen: int, dangerous: string -> bool): Result<string>
  {
    if text == "" then Ok("")
    else
      var t := Scrubbed(text, maxLen);
      if dangerous(t) then Err(BadRequest) else Ok(Strip(t))
  }

  /** Empty input gives "". Otherwise the input is rejected with 400 exactly
      when a pattern is found in the scrubbed prefix; an accepted result is
      no longer than `max_len` (or than the input), holds no NUL or control
      character, only characters of the input, and is stripped. */
  lemma SanitizeInputCorrect(text: string, maxLen: int, dangerous: string -> bool)
    ensures text == "" ==> SanitizeInput(text, maxLen, dangerous) == Ok("")
    ensures text != "" ==>
      (SanitizeInput(text, maxLen, dangerous).Err? <==> dangerous(Scrubbed(text, maxLen)))
    ensures SanitizeInput(text, maxLen, dangerous).Err? ==> SanitizeInput(text, maxLen, dangerous).status == BadRequest
    ensures SanitizeInput(text, maxLen, dangerous).Ok? ==>
      var r := SanitizeInput(text, maxLen, dangerous).value;
      && |r| <= |text|
      && (0 <= maxLen ==> |r| <= maxLen)
      && (forall k :: 0 <= k < |r| ==> r[k] != '\U{0000}' && !IsControl(r[k]) && r[k] in text)
      && (r != [] ==> !IsSpace(r[0]) && !IsSpace(r[|r| - 1]))
  {
    if text != "" {
      var t := Scrubbed(text, maxLen);
      ScrubbedClean(text, maxLen);
      StripInside(t);
      var r := Strip(t);
      forall k | 0 <= k < |r| ensures r[k] != '\U{0000}' && !IsControl(r[k]) && r[k] in text {
        assert r[k] in r;
      }
    }
  }

  /** The scrubbed prefix is no longer than `max_len` or the input and holds
      only characters of the input other than NUL and the controls. */
  lemma ScrubbedClean(text: string, maxLen: int)
    ensures var t := Scrubbed(text, maxLen);
      && |t| <= |text|
      && (0 <= maxLen ==> |t| <= maxLen)
      && (forall c :: c in t ==> c != '\U{0000}' && !IsControl(c) && c in text)
  {
    var p := Take(text, maxLen);
    var t := Scrubbed(text, maxLen);
    assert forall c :: c in p ==> c in text;
    assert forall c :: c in DropNul(p) ==> c != '\U{0000}' && c in p;
    assert forall k :: 0 <= k < |t| ==> t[k] in DropNul(p);
  }

  /** Every character of `s.strip()` is a character of `s`. */
  lemma StripInside(t: string)
    ensures forall c :: c in Strip(t) ==> c in t
  {
    var r := Strip(t);
    forall c | c in r ensures c in t {
      var k :| 0 <= k < |r| && r[k] == c;
      assert r[k] == t[StripStart(t) + k];
    }
  }

  /** Only the first `max_len` characters are looked at: two non-empty inputs
      that agree on them get the same answer, whatever follows. */
  lemma SanitizeInputPrefix(text: string, other: string, maxLen: int, dangerous: string -> bool)
    requires text != "" && other != "" && Take(text, maxLen) == Take(other, maxLen)
    ensures SanitizeInput(text, maxLen, dangerous) == SanitizeInput(other, maxLen, dangerous)
  {
  }

  // ---------------------------------------------------- sanitize_username

  /** The class `[a-zA-Z0-9_\-\.]`. */
  predicate IsNameChar(c: char)
  {
    ('a' <= c <= 'z') || ('A' <= c <= 'Z') || ('0' <= c <= '9') || c == '_' || c == '-' || c == '.'
  }

  predicate AllNameChars(s: string)
  {
    forall k :: 0 <= k < |s| ==> IsNameChar(s[k])
  }

  /** `re.match(r'^[a-zA-Z0-9_\-\.]+$', s)` as Python reads it: without
      MULTILINE, `$` matches at the end and also just before a final
      newline. */
  predicate NameMatchAsWritten(s: string)
  {
    (s != [] && AllNameChars(s)) ||
    (|s| >= 2 && s[|s| - 1] == '\n' && AllNameChars(s[..|s| - 1]))
  }

  /** `username.strip()[:50]`. */
  function UsernameCut(username: string): string
  {
    Take(Strip(username), MaxUsername)
  }

  /** `sanitize_username` as written. */
  function SanitizeUsernameAsWritten(username: string): Result<string>
  {
    var u := UsernameCut(username);
    if !NameMatchAsWritten(u) then Err(BadRequest)
    else if |u| < MinUsername then Err(BadRequest)
    else Ok(u)
  }

  /** 49 letters, a newline and one more letter. */
  const NewlineName: string := seq(49, _ => 'a') + "\nb"

  /** The as-written check lets a newline through: the name keeps its inner
      newline after `strip()`, the cut to 50 characters makes the newline
      last, and `$` matches before it. */
  lemma UsernameNewlineAccepted()
    ensures SanitizeUsernameAsWritten(NewlineName) == Ok(seq(49, _ => 'a') + "\n")
    ensures '\n' in SanitizeUsernameAsWritten(NewlineName).value
  {
    var u := NewlineName;
    var v := seq(49, _ => 'a') + "\n";
    assert !IsSpace(u[0]) && !IsSpace(u[|u| - 1]);
    assert SkipSpaces(u, 0) == 0;
    assert TrimEnd(u, 0, |u|) == |u|;
    assert Strip(u) == u;
    assert u[..MaxUsername] == v;
    assert v[..|v| - 1] == seq(49, _ => 'a');
    assert v[|v| - 1] == '\n';
  }

  /** `sanitize_username` with the pattern matched against the whole name
      (as `re.fullmatch` or `\Z` would): the behaviour the check is evidently
      meant to have, and the one the rest of the model uses. */
  function SanitizeUsername(username: string): Result<string>
  {
    var u := UsernameCut(username);
    if !(u != [] && AllNameChars(u)) then Err(BadRequest)
    else if |u| < MinUsername then Err(BadRequest)
    else Ok(u)
  }

  /** A name is accepted exactly when its stripped, cut form is 3 to 50
      characters of `[a-zA-Z0-9_.-]`; that form is returned; everything else
      is rejected with 400. The newline name is rejected. */
  lemma SanitizeUsernameCorrect(username: string)
    ensures var u := UsernameCut(username);
      && (SanitizeUsername(username).Ok? <==> MinUsername <= |u| && AllNameChars(u))
      && (SanitizeUsername(username).Ok? ==>
            var r := SanitizeUsername(username).value;
            && r == u && MinUsername <= |r| <= MaxUsername && AllNameChars(r) && '\n' !in r)
      && (SanitizeUsername(username).Err? ==> SanitizeUsername(username).status == BadRequest)
    ensures SanitizeUsername(NewlineName).Err?
  {
    var u := UsernameCut(username);
    if SanitizeUsername(username).Ok? {
      assert forall k :: 0 <= k < |u| ==> u[k] != '\n';
    }
    UsernameNewlineAccepted();
    var v := UsernameCut(NewlineName);
    assert v[|v| - 1] == '\n';
  }

  /** On names without a newline the two checks agree. */
  lemma UsernameChecksAgree(username: string)
    requires '\n' !in UsernameCut(username)
    ensures SanitizeUsernameAsWritten(username) == SanitizeUsername(username)
  {
    var u := UsernameCut(username);
    if |u| >= 2 {
      assert u[|u| - 1] in u;
    }
  }

  // ---------------------------------------------------- sanitize_password

  /** `sanitize_password`: accepted unchanged exactly when 6 to 128
      characters long, otherwise rejected with 400. */
  function SanitizePassword(password: string): (r: Result<string>)
    ensures r.Ok? <==> MinPassword <= |password| <= MaxPassword
    ensures r.Ok? ==> r.value == password
    ensures r.Err? ==> r.status == BadRequest
  {
    if |password| < MinPassword then Err(BadRequest)
    else if |password| > MaxPassword then Err(BadRequest)
    else Ok(password)
  }

  // --------------------------------------------------------- needs_rehash

  /** The prefix of a bcrypt hash. */
  const BcryptPrefix: string := "$2"

  /** `needs_rehash(hashed)`; `bcryptLoaded` says whether the bcrypt module
      could be imported. */
  function NeedsRehash(hashed: string, bcryptLoaded: bool): bool
  {
    bcryptLoaded && !StartsWith(hashed, BcryptPrefix)
  }

  predicate IsHexDigit(c: char)
  {
    ('0' <= c <= '9') || ('a' <= c <= 'f')
  }

  /** With bcrypt loaded, a bcrypt hash is never rehashed and a SHA-256
      fallback hash (lower-case hex) always is; without bcrypt nothing is. */
  lemma NeedsRehashCorrect(hashed: string, bcryptLoaded: bool)
    ensures !bcryptLoaded ==> !NeedsRehash(hashed, bcryptLoaded)
    ensures StartsWith(hashed, BcryptPrefix) ==> !NeedsRehash(hashed, bcryptLoaded)
    ensures bcryptLoaded && hashed != [] && (forall k :: 0 <= k < |hashed| ==> IsHexDigit(hashed[k])) ==>
      NeedsRehash(hashed, bcryptLoaded)
  {
    if bcryptLoaded && hashed != [] && forall k :: 0 <= k < |hashed| ==> IsHexDigit(hashed[k]) {
      assert IsHexDigit(hashed[0]);
      if |hashed| >= 2 {
        assert hashed[..2][0] == hashed[0];
      }
    }
  }

  // -------------------------------------------------------- get_client_ip

  /** The class `[\d\.a-fA-F:]`, `\d` being any decimal digit. */
  predicate IsIpChar(c: char)
  {
    IsDigit(c) || c == '.' || ('a' <= c <= 'f') || ('A' <= c <= 'F') || c == ':'
  }

  predicate AllIpChars(s: string)
  {
    forall k :: 0 <= k < |s| ==> IsIpChar(s[k])
  }

  /** `re.match(r'^[\d\.a-fA-F:]+$', s)`, `$` also matching before a final
      newline. */
  predicate IpMatch(s: string)
  {
    (s != [] && AllIpChars(s)) ||
    (|s| >= 2 && s[|s| - 1] == '\n' && AllIpChars(s[..|s| - 1]))
  }

  /** `forwarded.split(",")[0].strip()`. */
  function FirstHop(forwarded: string): string
  {
    Strip(Split(forwarded, ",")[0])
  }

  /** `get_client_ip`: the `X-Forwarded-For` header and the client host, each
      `None` when absent. */
  function ClientIp(forwarded: Option<string>, client: Option<string>): string
  {
    if forwarded.Some? && forwarded.value != "" && IpMatch(FirstHop(forwarded.value))
    then FirstHop(forwarded.value)
    else if client.Some? then client.value
    else UnknownIp
  }

  /** The first comma-separated entry of `s` runs up to the first comma. */
  lemma {:induction false} SplitHead(s: string)
    ensures var h := Split(s, ",")[0];
      && |h| <= |s| && h == s[..|h|] && ',' !in h
    decreases |s|
  {
    if |s| >= 1 && s[..1] != "," {
      SplitHead(s[1..]);
    }
  }

  /** The first entry, stripped, holds no comma and only characters of the
      header; because stripping removed any final newline, the pattern
      matches it exactly when it is a non-empty run of the class. */
  lemma FirstHopShape(forwarded: string)
    ensures var ip := FirstHop(forwarded);
      && ',' !in ip
      && (forall c :: c in ip ==> c in forwarded)
      && (IpMatch(ip) <==> ip != [] && AllIpChars(ip))
  {
    var h := Split(forwarded, ",")[0];
    var ip := FirstHop(forwarded);
    SplitHead(forwarded);
    assert forall c :: c in ip ==> c in h;
    assert forall c :: c in h ==> c in forwarded;
  }

  /** The forwarded header is present, non-empty, and its first entry is
      usable. */
  predicate UsableHop(forwarded: Option<string>)
  {
    forwarded.Some? && forwarded.value != "" && FirstHop(forwarded.value) != [] && AllIpChars(FirstHop(forwarded.value))
  }

  /** A forwarded address is used exactly when its first entry, stripped, is
      a non-empty run of digits, dots, colons and hex letters; that entry
      then holds no comma, no white space and only characters of the header.
      Otherwise the client host is used, or "0.0.0.0". */
  lemma ClientIpCorrect(forwarded: Option<string>, client: Option<string>)
    ensures UsableHop(forwarded) ==> ClientIp(forwarded, client) == FirstHop(forwarded.value)
    ensures !UsableHop(forwarded) ==>
      ClientIp(forwarded, client) == if client.Some? then client.value else UnknownIp
    ensures UsableHop(forwarded) ==>
      var r := ClientIp(forwarded, client);
      && r != [] && AllIpChars(r) && ',' !in r
      && (forall k :: 0 <= k < |r| ==> !IsSpace(r[k]))
      && (forall c :: c in r ==> c in forwarded.value)
  {
    if forwarded.Some? && forwarded.value != "" {
      var ip := FirstHop(forwarded.value);
      FirstHopShape(forwarded.value);
      if UsableHop(forwarded) {
        forall k | 0 <= k < |ip| ensures !IsSpace(ip[k]) {
          assert IsIpChar(ip[k]);
        }
      }
    }
  }
}
