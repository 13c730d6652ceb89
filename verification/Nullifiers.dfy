/**
 The append-only store of consumed nullifiers: one key per line, read back trimmed and
 lowercased. The key of a credential is its authentication type, a colon and its nullifier.
 */
module Nullifiers {
  import opened Bits
  import opened Wrappers
  import opened Text
  import opened TextLaws

  // ---------------------------------------------------------------- reading the file

  function LineEnd(s: string): (n: nat)
    ensures n <= |s| && '\n' !in s[..n] && (n < |s| ==> s[n] == '\n')
  {
    if s == "" || s[0] == '\n' then 0 else
      var n := LineEnd(s[1..]);
      assert s[..n + 1] == [s[0]] + s[1..][..n];
      n + 1
  }

  function StripCr(line: string): string {
    if line != "" && line[|line| - 1] == '\r' then line[..|line| - 1] else line
  }

  // str::lines
  function Lines(s: string): seq<string> {
    if s == "" then [] else
      var n := LineEnd(s);
      if n == |s| then [s] else [StripCr(s[..n])] + Lines(s[n + 1..])
  }

  function Canonical(line: string): string {
    Lower(Trim(line))
  }

  // The keys a file holds.
  function Keys(contents: string): set<string> {
    set line | line in Lines(contents) && Canonical(line) != "" :: Canonical(line)
  }

  // A missing file is an empty store, and so is the empty path.
  function Load(path: string, disk: map<string, string>): set<string> {
    if path == "" || path !in disk then {} else Keys(disk[path])
  }

  lemma KeysMeaning(contents: string, key: string)
    ensures key in Keys(contents) <==> key != "" && exists line :: line in Lines(contents) && Lower(Trim(line)) == key
  {
    hide Lines, Lower, Trim;
    if key != "" && exists line :: line in Lines(contents) && Lower(Trim(line)) == key {
      var line :| line in Lines(contents) && Lower(Trim(line)) == key;
      assert Canonical(line) == key;
    }
  }

  method LoadNullifiers(path: string, disk: map<string, string>) returns (keys: set<string>)
    ensures keys == Load(path, disk)
    ensures path == "" || path !in disk ==> keys == {}
    ensures path != "" && path in disk ==>
              forall k :: k in keys <==> k != "" && exists line :: line in Lines(disk[path]) && Lower(Trim(line)) == k
  {
    hide Canonical, Lines;
    keys := {};
    if path == "" || path !in disk {
      return;
    }
    var lines := Lines(disk[path]);
    for i := 0 to |lines|
      invariant keys == set line | line in lines[..i] && Canonical(line) != "" :: Canonical(line)
    {
      var n := Canonical(lines[i]);
      if n != "" {
        keys := keys + {n};
      }
      assert lines[..i + 1] == lines[..i] + [lines[i]];
    }
    assert lines[..|lines|] == lines;
    forall k ensures k in keys <==> k != "" && exists line :: line in lines && Lower(Trim(line)) == k {
      KeysMeaning(disk[path], k);
    }
  }

  // ---------------------------------------------------------------- writing the file

  // Appending creates the file; without a path nothing is written.
  function Append(path: string, disk: map<string, string>, key: string): map<string, string> {
    if path == "" then disk
    else disk[path := (if path in disk then disk[path] else "") + key + "\n"]
  }

  // The file is empty or its last line is finished.
  predicate Complete(contents: string) {
    contents == "" || contents[|contents| - 1] == '\n'
  }

  // ---------------------------------------------------------------- what survives a restart

  lemma {:induction false} LineEndIs(s: string, n: nat)
    requires n <= |s| && '\n' !in s[..n] && (n < |s| ==> s[n] == '\n')
    ensures LineEnd(s) == n
  {
    if n > 0 {
      assert s[0] in s[..n];
      assert s[1..][..n - 1] == s[..n][1..];
      LineEndIs(s[1..], n - 1);
    }
  }

  lemma LineEndAppend(f: string, g: string)
    requires LineEnd(f) < |f|
    ensures LineEnd(f + g) == LineEnd(f)
  {
    var n := LineEnd(f);
    assert (f + g)[..n] == f[..n];
    LineEndIs(f + g, n);
  }

  lemma NoLines()
    ensures Lines("") == []
  {
  }

  lemma FirstLine(s: string)
    requires LineEnd(s) < |s|
    ensures Lines(s) == [StripCr(s[..LineEnd(s)])] + Lines(s[LineEnd(s) + 1..])
  {
    hide LineEnd, StripCr;
  }

  lemma CompleteEnds(f: string, n: nat)
    requires Complete(f) && f != "" && n == LineEnd(f)
    ensures n < |f| && Complete(f[n + 1..])
  {
    assert f[|f| - 1] in f;
    assert f[..|f|] == f;
  }

  lemma {:induction false} LinesAppend(f: string, g: string)
    requires Complete(f)
    ensures Lines(f + g) == Lines(f) + Lines(g)
    decreases |f|
  {
    hide Complete, LineEnd, StripCr, Lines;
    if f == "" {
      NoLines();
      assert f + g == g;
    } else {
      var n := LineEnd(f);
      CompleteEnds(f, n);
      LineEndAppend(f, g);
      assert (f + g)[..n] == f[..n] && (f + g)[n + 1..] == f[n + 1..] + g;
      FirstLine(f);
      FirstLine(f + g);
      LinesAppend(f[n + 1..], g);
    }
  }

  lemma KeysAppend(f: string, g: string)
    requires Complete(f)
    ensures Keys(f + g) == Keys(f) + Keys(g)
  {
    LinesAppend(f, g);
  }

  // The lines of a text: what stands before each newline, without one carriage return, and what
  // stands after the last newline, if anything.
  lemma LinesMeaning(line: string, rest: string)
    requires '\n' !in line
    ensures Lines(line) == if line == "" then [] else [line]
    ensures Lines(line + "\n" + rest)
            == [if line != "" && line[|line| - 1] == '\r' then line[..|line| - 1] else line] + Lines(rest)
  {
    hide LineEnd;
    assert line[..|line|] == line;
    LineEndIs(line, |line|);
    var s := line + "\n" + rest;
    assert s[..|line|] == line && s[|line| + 1..] == rest;
    LineEndIs(s, |line|);
  }

  lemma LowerLength(s: string)
    ensures |Lower(s)| == |s|
  {
  }

  // No key that is read back has a capital letter.
  lemma KeysLowercase(contents: string, key: string)
    requires key in Keys(contents)
    ensures forall i :: 0 <= i < |key| ==> !('A' <= key[i] <= 'Z')
  {
    hide Lines, Lower, Trim;
    var line :| line in Lines(contents) && Canonical(line) == key;
    LowerKeepsOthers(Trim(line));
    LowerLength(Trim(line));
  }

  // A key that is read back as it was written.
  predicate Storable(key: string) {
    key != "" && '\n' !in key && Canonical(key) == key
  }

  lemma LowerKeepsSpace(s: string)
    ensures forall i :: 0 <= i < |s| ==> IsWhitespace(Lower(s)[i]) == IsWhitespace(s[i])
    ensures '\n' in Lower(s) <==> '\n' in s
  {
  }

  lemma CanonicalIdempotent(s: string)
    ensures Canonical(Canonical(s)) == Canonical(s)
  {
    hide Trim, Lower;
    var t := Trim(s);
    TrimFixed(s);
    TrimFixed(t);
    TrimFixed(Lower(t));
    LowerKeepsSpace(t);
    LowerLength(t);
    LowerIdempotent(t);
  }

  lemma TrimPart(s: string)
    ensures forall c :: c in Trim(s) ==> c in s
  {
  }

  lemma {:induction false} LinesHaveNoNewline(s: string)
    ensures forall line :: line in Lines(s) ==> '\n' !in line
    decreases |s|
  {
    if s != "" {
      var n := LineEnd(s);
      if n < |s| {
        LinesHaveNoNewline(s[n + 1..]);
      } else {
        assert s[..n] == s;
      }
    }
  }

  // Everything a file is read as is storable.
  lemma LoadedStorable(contents: string, key: string)
    requires key in Keys(contents)
    ensures Storable(key)
  {
    hide Lines, Lower, Trim;
    var line :| line in Lines(contents) && Canonical(line) == key;
    LinesHaveNoNewline(contents);
    TrimPart(line);
    LowerKeepsSpace(Trim(line));
    CanonicalIdempotent(line);
  }

  lemma TrimsTo(key: string)
    requires Storable(key)
    ensures !IsWhitespace(key[0]) && !IsWhitespace(key[|key| - 1])
  {
    var t := Trim(key);
    assert |Lower(t)| == |t| == |key|;
    assert t <= TrimStart(key) && |TrimStart(key)| == |key|;
    assert t == key;
    TrimFixed(key);
  }

  lemma OneLine(key: string)
    requires Storable(key)
    ensures Keys(key + "\n") == {key}
  {
    hide Lower;
    TrimFixed(key);
    LowerLength(Trim(key));
    var f := key + "\n";
    assert f[|key|] == '\n' && f[..|key|] == key;
    LineEndIs(f, |key|);
    TrimsTo(key);
    assert Lines(f) == [key] + Lines("");
  }

  lemma EmptyKeys()
    ensures Keys("") == {} && Complete("")
  {
  }

  // A key survives being written and read back, whatever was in the file, exactly when it is
  // storable.
  lemma AppendMeaning(key: string)
    ensures Storable(key) <==> forall f :: Complete(f) ==> Keys(f + (key + "\n")) == Keys(f) + {key}
  {
    hide Keys, Storable, Complete;
    if Storable(key) {
      forall f | Complete(f) ensures Keys(f + (key + "\n")) == Keys(f) + {key} {
        KeysAppend(f, key + "\n");
        OneLine(key);
      }
    }
    if forall f :: Complete(f) ==> Keys(f + (key + "\n")) == Keys(f) + {key} {
      EmptyKeys();
      LoadedStorable("" + (key + "\n"), key);
    }
  }

  lemma AppendStorable(path: string, disk: map<string, string>, key: string)
    requires path != "" && Storable(key) && (path in disk ==> Complete(disk[path]))
    ensures Load(path, Append(path, disk, key)) == Load(path, disk) + {key}
    ensures path in Append(path, disk, key) && Complete(Append(path, disk, key)[path])
  {
    hide Keys, Storable;
    var f := if path in disk then disk[path] else "";
    AppendMeaning(key);
    assert f + key + "\n" == f + (key + "\n");
    EmptyKeys();
  }

  // ---------------------------------------------------------------- keys

  function KeyText(authType: string, nul: string): string {
    authType + ":" + nul
  }

  predicate Clean(s: string) {
    Lower(s) == s && forall c :: c in s ==> !IsWhitespace(c) && !IsControl(c)
  }

  // What a verifier's nullifier is after trimming, lowercasing and checking.
  predicate Normalized(nul: string) {
    nul != "" && Clean(nul)
  }

  // A verifier's nullifier at the trust boundary; None is the malformed one.
  function Normalize(nul: string): Option<string> {
    var n := Lower(Trim(nul));
    if n == "" || exists c :: c in n && (IsWhitespace(c) || IsControl(c)) then None else Some(n)
  }

  lemma NormalizeFixed(nul: string)
    requires Normalized(nul)
    ensures Normalize(nul) == Some(nul)
  {
    hide Trim, Lower, IsWhitespace, IsControl;
    assert nul[0] in nul && nul[|nul| - 1] in nul;
    TrimFixed(nul);
  }

  // Hex text is normalized as it is.
  lemma HexNormalized(b: seq<byte>)
    requires b != []
    ensures Normalized(HexEncode(b)) && Normalize(HexEncode(b)) == Some(HexEncode(b))
  {
    hide HexEncode;
    var s := HexEncode(b);
    HexDigitsOnly(b);
    assert Lower(s) == s;
    NormalizeFixed(s);
  }

  predicate Plain(s: string) {
    s != "" && forall i :: 0 <= i < |s| ==> !IsWhitespace(s[i]) && !IsControl(s[i])
  }

  lemma LowerKeepsPlain(s: string)
    ensures forall i :: 0 <= i < |s| ==>
              IsWhitespace(Lower(s)[i]) == IsWhitespace(s[i]) && IsControl(Lower(s)[i]) == IsControl(s[i])
  {
  }

  // Whitespace around a nullifier is dropped and its letters are lowered; with whitespace or
  // control characters inside, or with nothing left, it is malformed.
  lemma NormalizeMeaning(a: string, m: string, b: string)
    requires Blank(a) && Blank(b) && Bare(m) && (m == "" ==> b == "")
    ensures Normalize(a + m + b) == if Plain(m) then Some(Lower(m)) else None
    ensures Plain(m) ==> forall i :: 0 <= i < |m| ==> !('A' <= Lower(m)[i] <= 'Z')
  {
    hide Trim;
    TrimMeaning(a, m, b);
    LowerKeepsOthers(m);
    LowerKeepsPlain(m);
    if !Plain(m) && m != "" {
      var i :| 0 <= i < |m| && (IsWhitespace(m[i]) || IsControl(m[i]));
      assert Lower(m)[i] in Lower(m);
    }
  }

  // Nullifiers that differ in the case of letters only are the same.
  lemma NormalizeForgetsCase(s: string, t: string)
    requires SameUpToCase(s, t)
    ensures Normalize(s) == Normalize(t)
  {
    hide Trim, Lower;
    LowerForgetsCase(s, t);
    TrimLower(s);
    TrimLower(t);
  }

  lemma NormalizeNormalizes(nul: string)
    ensures Normalize(nul).Some? ==> Normalized(Normalize(nul).value)
  {
    LowerIdempotent(Trim(nul));
  }

  // The keys of a vector survive a restart exactly when its name is lowercase, has no newline
  // and does not start with whitespace, whatever the nullifier.
  predicate StorableType(authType: string) {
    && Lower(authType) == authType && '\n' !in authType
    && (authType != "" ==> !IsWhitespace(authType[0]))
  }

  lemma CanonicalFixed(s: string)
    ensures Canonical(s) == s <==> Trim(s) == s && Lower(s) == s
  {
    hide IsWhitespace, TrimStart, TrimEnd, Lower;
    var t := Trim(s);
    LowerLength(t);
    assert t <= TrimStart(s);
    if |t| == |s| {
      assert TrimStart(s) == s;
    }
  }

  lemma LowerAppend(a: string, b: string)
    ensures Lower(a + b) == Lower(a) + Lower(b)
  {
  }

  lemma LowerKey(authType: string, nul: string)
    requires Lower(nul) == nul
    ensures Lower(KeyText(authType, nul)) == KeyText(authType, nul) <==> Lower(authType) == authType
  {
    LowerAppend(authType + ":", nul);
    LowerAppend(authType, ":");
    assert Lower(":") == ":";
    assert (Lower(authType) + ":" + nul)[..|authType|] == Lower(authType);
    assert KeyText(authType, nul)[..|authType|] == authType;
  }

  lemma KeyStorable(authType: string, nul: string)
    requires Normalized(nul)
    ensures Storable(KeyText(authType, nul)) <==> StorableType(authType)
  {
    hide Lower, Trim;
    var key := KeyText(authType, nul);
    CanonicalFixed(key);
    TrimFixed(key);
    assert key[|key| - 1] == nul[|nul| - 1] && nul[|nul| - 1] in nul;
    assert key[0] == if authType == "" then ':' else authType[0];
    assert IsWhitespace('\n');
    LowerKey(authType, nul);
  }

  // b is a, a colon and something a nullifier could begin with.
  predicate Extends(a: string, b: string) {
    |a| < |b| && b[..|a| + 1] == a + ":" && Clean(b[|a| + 1..])
  }

  lemma ExtensionCollides(a: string, b: string)
    requires Extends(a, b)
    ensures exists m, n :: Normalized(m) && Normalized(n) && KeyText(a, m) == KeyText(b, n)
    ensures exists m, n :: Normalized(m) && Normalized(n) && KeyText(b, m) == KeyText(a, n)
  {
    var tail := b[|a| + 1..];
    var n := "0";
    var m := tail + ":" + n;
    assert Normalized(n) by {
      assert LowerChar('0') == '0';
    }
    LowerAppend(tail, ":" + n);
    assert m == tail + (":" + n);
    assert Lower(":" + n) == ":" + n;
    assert Normalized(m);
    assert b == a + ":" + tail;
    assert KeyText(a, m) == KeyText(b, n);
  }

  lemma SameLength(a: string, m: string, b: string, n: string)
    requires |a| == |b| && KeyText(a, m) == KeyText(b, n)
    ensures a == b && m == n
  {
    assert KeyText(a, m)[..|a|] == a && KeyText(b, n)[..|b|] == b;
    assert KeyText(a, m)[|a| + 1..] == m && KeyText(b, n)[|b| + 1..] == n;
  }

  lemma PrefixExtends(a: string, m: string, b: string, n: string)
    requires |a| < |b| && Normalized(m) && KeyText(a, m) == KeyText(b, n)
    ensures Extends(a, b)
  {
    var key := KeyText(a, m);
    assert b == key[..|b|];
    assert b[..|a| + 1] == key[..|a| + 1] == a + ":";
    var tail := b[|a| + 1..];
    assert tail == key[|a| + 1..|b|] == m[..|tail|];
    assert Lower(tail) == Lower(m)[..|tail|];
  }

  lemma CollisionExtends(a: string, m: string, b: string, n: string)
    requires a != b && Normalized(m) && Normalized(n) && KeyText(a, m) == KeyText(b, n)
    ensures Extends(a, b) || Extends(b, a)
  {
    var key := KeyText(a, m);
    if |a| < |b| {
      PrefixExtends(a, m, b, n);
    } else if |b| < |a| {
      PrefixExtends(b, n, a, m);
    } else {
      SameLength(a, m, b, n);
    }
  }

  // Two vectors can share a key exactly when the name of one extends the other's.
  lemma CollisionMeaning(a: string, b: string)
    requires a != b
    ensures (exists m, n :: Normalized(m) && Normalized(n) && KeyText(a, m) == KeyText(b, n)) <==>
        Extends(a, b) || Extends(b, a)
  {
    if Extends(a, b) {
      ExtensionCollides(a, b);
    }
    if Extends(b, a) {
      ExtensionCollides(b, a);
    }
    forall m, n | Normalized(m) && Normalized(n) && KeyText(a, m) == KeyText(b, n)
        ensures Extends(a, b) || Extends(b, a) {
      CollisionExtends(a, m, b, n);
    }
  }

  lemma ExtensionHasColon(a: string, b: string)
    requires Extends(a, b)
    ensures ':' in b
  {
    assert b[..|a| + 1][|a|] == ':';
  }

  // Names without a colon never collide.
  lemma ColonFreeTypesNeverCollide(a: string, m: string, b: string, n: string)
    requires ':' !in a && ':' !in b && Normalized(m) && Normalized(n)
    ensures KeyText(a, m) == KeyText(b, n) <==> a == b && m == n
  {
    if KeyText(a, m) == KeyText(b, n) {
      if a != b {
        CollisionExtends(a, m, b, n);
        if Extends(a, b) {
          ExtensionHasColon(a, b);
        } else {
          ExtensionHasColon(b, a);
        }
      } else {
        SameLength(a, m, b, n);
      }
    }
  }
}
