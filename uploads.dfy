/** Naming of uploaded photo files: the multer `filename` callback (the
    time stamp, a dash, and the original name with every run of white space
    replaced by one dash), the upload directory setting, and the two paths
    an upload is known by: where multer writes it and what the submission
    handler records. */
module Uploads {
  import opened Common

  /** `name.replace(/\s+/g, '-')`: a white-space character followed by
      another one contributes nothing, the last one of a run gives the
      dash. */
  function Sanitize(name: string): string
  {
    if name == [] then []
    else if IsSpace(name[0]) then
      (if |name| > 1 && IsSpace(name[1]) then Sanitize(name[1..]) else "-" + Sanitize(name[1..]))
    else [name[0]] + Sanitize(name[1..])
  }

  /** The sanitised name holds no white space. */
  lemma {:induction false} SanitizeNoSpace(name: string)
    ensures NoSpace(Sanitize(name))
  {
    if name != [] {
      SanitizeNoSpace(name[1..]);
    }
  }

  /** A name without white space is left as it is. */
  lemma {:induction false} SanitizeClean(name: string)
    requires NoSpace(name)
    ensures Sanitize(name) == name
  {
    if name != [] {
      assert !IsSpace(name[0]);
      SanitizeClean(name[1..]);
    }
  }

  /** Sanitising twice gives the same result as sanitising once. */
  lemma SanitizeIdempotent(name: string)
    ensures Sanitize(Sanitize(name)) == Sanitize(name)
  {
    SanitizeNoSpace(name);
    SanitizeClean(Sanitize(name));
  }

  predicate EndsInText(a: string) {
    a == [] || !IsSpace(a[|a| - 1])
  }

  /** Sanitising distributes over a split point that is not inside a run
      of white space. */
  lemma {:induction false} SanitizeAppend(a: string, t: string)
    requires EndsInText(a)
    ensures Sanitize(a + t) == Sanitize(a) + Sanitize(t)
  {
    if a == [] {
      assert a + t == t;
    } else {
      var rest := a[1..];
      assert (a + t)[0] == a[0];
      assert (a + t)[1..] == rest + t;
      assert rest != [] ==> (a + t)[1] == a[1];
      assert EndsInText(rest) by {
        assert rest == [] || rest[|rest| - 1] == a[|a| - 1];
      }
      SanitizeAppend(rest, t);
    }
  }

  /** A run of white space in front of text becomes one dash. */
  lemma {:induction false} SanitizeSpaces(w: string, b: string)
    requires w != [] && AllSpace(w)
    requires b == [] || !IsSpace(b[0])
    ensures Sanitize(w + b) == "-" + Sanitize(b)
  {
    assert (w + b)[0] == w[0];
    assert (w + b)[1..] == w[1..] + b;
    if |w| == 1 {
      assert w[1..] + b == b;
    } else {
      assert (w + b)[1] == w[1];
      SanitizeSpaces(w[1..], b);
    }
  }

  /** Each maximal run of white space becomes exactly one dash, and the text
      on either side of it is kept in order. */
  lemma SanitizeRun(a: string, w: string, b: string)
    requires EndsInText(a) && w != [] && AllSpace(w)
    requires b == [] || !IsSpace(b[0])
    ensures Sanitize(a + w + b) == Sanitize(a) + "-" + Sanitize(b)
  {
    assert a + w + b == a + (w + b);
    SanitizeAppend(a, w + b);
    SanitizeSpaces(w, b);
  }

  /** The characters of `s` other than white space and dashes, in order. */
  function Text(s: string): string {
    if s == [] then []
    else if IsSpace(s[0]) || s[0] == '-' then Text(s[1..])
    else [s[0]] + Text(s[1..])
  }

  /** Sanitising keeps every character that is not white space, in its
      original order: apart from dashes the two names read the same. */
  lemma {:induction false} SanitizeKeepsText(name: string)
    ensures Text(Sanitize(name)) == Text(name)
  {
    if name != [] {
      var rest := name[1..];
      SanitizeKeepsText(rest);
      if IsSpace(name[0]) {
        if !(|name| > 1 && IsSpace(name[1])) {
          assert ("-" + Sanitize(rest))[1..] == Sanitize(rest);
        }
      } else {
        assert ([name[0]] + Sanitize(rest))[1..] == Sanitize(rest);
      }
    }
  }

  /** The name multer stores an upload under: `Date.now() + '-' + safe`. */
  function StoredName(stamp: nat, originalName: string): string {
    NatToString(stamp) + "-" + Sanitize(originalName)
  }

  /** The stored name is the decimal time stamp, a dash, then the sanitised
      original name; it holds no white space, and `parseInt` of it gives
      back the time stamp. */
  lemma StoredNameParts(stamp: nat, originalName: string)
    ensures var n := StoredName(stamp, originalName);
      var d := NatToString(stamp);
      DigitPrefix(n) == d && n[|d|] == '-' && n[|d| + 1..] == Sanitize(originalName)
      && NoSpace(n) && ParseInt(n) == Some(stamp)
  {
    SanitizeNoSpace(originalName);
    JoinParts(NatToString(stamp), Sanitize(originalName));
    JoinPartsParse(NatToString(stamp), Sanitize(originalName));
    DigitsValueOfNatToString(stamp);
  }

  /** Digits, a dash and a string without white space: the digits are the
      digit prefix and nothing in it is white space. */
  lemma JoinParts(d: string, rest: string)
    requires d != [] && AllDigits(d) && NoSpace(rest)
    ensures var n := d + "-" + rest;
      DigitPrefix(n) == d && n[|d|] == '-' && n[|d| + 1..] == rest && NoSpace(n)
  {
    var tail := "-" + rest;
    var n := d + tail;
    assert d + "-" + rest == n;
    DigitPrefixStops(d, tail);
    assert n[|d|] == '-';
    assert n[|d| + 1..] == rest;
    NoSpaceJoin(d, rest);
  }

  /** `parseInt` of digits, a dash and a string without white space reads
      the digits. */
  lemma JoinPartsParse(d: string, rest: string)
    requires d != [] && AllDigits(d) && NoSpace(rest)
    ensures ParseInt(d + "-" + rest) == Some(DigitsValue(d) as int)
  {
    var n := d + "-" + rest;
    JoinParts(d, rest);
    assert n[0] == d[0];
    assert !HexMarked(n) by {
      if |d| >= 2 { assert n[1] == d[1] && IsDigit(d[1]); } else { assert n[1] == '-'; }
    }
    ParseIntOfLeadingDigits(n, d);
  }

  /** Digits, a dash and a string without white space hold no white space. */
  lemma NoSpaceJoin(d: string, rest: string)
    requires AllDigits(d) && NoSpace(rest)
    ensures NoSpace(d + "-" + rest)
  {
    var n := d + "-" + rest;
    forall i | 0 <= i < |n| ensures !IsSpace(n[i]) {
      if i < |d| {
        assert n[i] == d[i];
      } else if i > |d| {
        assert n[i] == rest[i - |d| - 1];
      }
    }
  }

  lemma {:induction false} DigitPrefixStops(d: string, tail: string)
    requires AllDigits(d) && tail != [] && !IsDigit(tail[0])
    ensures DigitPrefix(d + tail) == d
    decreases |d|
  {
    if d == [] {
      assert d + tail == tail;
    } else {
      assert (d + tail)[1..] == d[1..] + tail;
      DigitPrefixStops(d[1..], tail);
    }
  }

  /** `process.env.UPLOAD_DIR || 'uploads'`. */
  function UploadDir(setting: Option<string>): (r: string)
    ensures setting.None? || setting.value == "" ==> r == "uploads"
    ensures setting.Some? && setting.value != "" ==> r == setting.value
  {
    if setting.Some? && setting.value != "" then setting.value else "uploads"
  }

  /** Where multer writes an upload: in the configured directory. */
  function WrittenPath(dir: string, storedName: string): string {
    dir + "/" + storedName
  }

  /** What the submission handler records for an upload: always under
      `uploads`, whatever the directory setting. */
  function RecordedPath(storedName: string): string {
    "uploads/" + storedName
  }

  /** The recorded path and the written path are the same string exactly
      when the upload directory setting is `uploads` (how each string is
      resolved against a directory on disk is not modelled). */
  lemma RecordedIsWrittenIff(dir: string, storedName: string)
    ensures RecordedPath(storedName) == WrittenPath(dir, storedName) <==> dir == "uploads"
  {
    if RecordedPath(storedName) == WrittenPath(dir, storedName) {
      var w := WrittenPath(dir, storedName);
      assert |dir| == 7;
      assert dir == w[..7] == "uploads";
    }
  }

  /** One uploaded file as multer sees it: the clock reading taken when it
      names the file, and the name the browser sent. */
  datatype Incoming = Incoming(stamp: nat, originalName: string)

  function StoredNames(files: seq<Incoming>): (r: seq<string>)
    ensures |r| == |files|
    ensures forall i :: 0 <= i < |files| ==> r[i] == StoredName(files[i].stamp, files[i].originalName)
  {
    seq(|files|, i requires 0 <= i < |files| => StoredName(files[i].stamp, files[i].originalName))
  }
}
