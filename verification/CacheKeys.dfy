/** The Redis keys behind the session cache: different users, pages and versions never share one, and
    no cached page lies under a version counter. */
module CacheKeys {
  import opened Text

  function ShowInt(n: int): string {
    if n < 0 then "-" + Show(-n) else Show(n)
  }

  function VersionedKey(prefix: string, user: string, version: int, page: int): string {
    prefix + "sessions:user:" + user + ":v" + ShowInt(version) + ":page:" + ShowInt(page)
  }

  function VersionKey(prefix: string, user: string): string {
    prefix + "sessions:user:" + user + ":version"
  }

  lemma NumbersHaveNoColon(n: int)
    ensures ':' !in ShowInt(n) && ShowInt(n) != "" && ShowInt(n)[0] != 'v'
  {
    var s := Show(if n < 0 then -n else n);
    assert s[0] in s;
    assert ':' !in s;
  }

  lemma ShowIntIsInjective(m: int, n: int)
    requires ShowInt(m) == ShowInt(n)
    ensures m == n
  {
    if m < 0 && n < 0 {
      assert ShowInt(m)[1..] == Show(-m) && ShowInt(n)[1..] == Show(-n);
      ShowIsInjective(-m, -n);
    } else if m >= 0 && n >= 0 {
      ShowIsInjective(m, n);
    } else {
      StartsWithDigit(if m < 0 then n else m);
      assert false;
    }
  }

  lemma StartsWithDigit(n: nat)
    ensures Show(n)[0] != '-'
  {
    assert Show(n)[0] in Show(n);
  }

  /** The last colon of a key tells where its last part begins. */
  lemma LastColon(a: string, x: string, b: string, y: string)
    requires ':' !in x && ':' !in y
    requires a + ":" + x == b + ":" + y
    ensures a == b && x == y
  {
    var s, t := a + ":" + x, b + ":" + y;
    assert forall i :: |a| < i < |s| ==> s[i] == x[i - |a| - 1];
    assert forall i :: |b| < i < |t| ==> t[i] == y[i - |b| - 1];
    assert s[|a|] == ':' && t[|b|] == ':';
    assert |a| == |b|;
    assert a == s[..|a|] && b == t[..|b|] && x == s[|a| + 1..] && y == t[|b| + 1..];
  }

  /** A versioned key, cut at its colons from the right. */
  function Stem(prefix: string, user: string): string {
    prefix + "sessions:user:" + user
  }

  lemma KeyParts(prefix: string, user: string, version: int, page: int)
    ensures VersionedKey(prefix, user, version, page) ==
            (Stem(prefix, user) + ":" + ("v" + ShowInt(version))) + ":" + "page" + ":" + ShowInt(page)
  {
  }

  lemma VersionedKeysAreDistinct(prefix: string, user: string, version: int, page: int,
                                 user': string, version': int, page': int)
    requires VersionedKey(prefix, user, version, page) == VersionedKey(prefix, user', version', page')
    ensures user == user' && version == version' && page == page'
  {
    KeyParts(prefix, user, version, page);
    KeyParts(prefix, user', version', page');
    NumbersHaveNoColon(page);
    NumbersHaveNoColon(page');
    NumbersHaveNoColon(version);
    NumbersHaveNoColon(version');
    var stem, stem' := Stem(prefix, user), Stem(prefix, user');
    var v, v' := "v" + ShowInt(version), "v" + ShowInt(version');
    LastColon(stem + ":" + v + ":" + "page", ShowInt(page), stem' + ":" + v' + ":" + "page", ShowInt(page'));
    LastColon(stem + ":" + v, "page", stem' + ":" + v', "page");
    LastColon(stem, v, stem', v');
    assert user == stem[|prefix + "sessions:user:"|..] && user' == stem'[|prefix + "sessions:user:"|..];
    assert v[1..] == ShowInt(version) && v'[1..] == ShowInt(version');
    ShowIntIsInjective(version, version');
    ShowIntIsInjective(page, page');
  }

  lemma PagesAreNoCounters(prefix: string, user: string, version: int, page: int, user': string)
    ensures VersionedKey(prefix, user, version, page) != VersionKey(prefix, user')
  {
    var key, counter := VersionedKey(prefix, user, version, page), VersionKey(prefix, user');
    if key == counter {
      KeyParts(prefix, user, version, page);
      NumbersHaveNoColon(page);
      var front := Stem(prefix, user) + ":" + ("v" + ShowInt(version)) + ":" + "page";
      assert counter == Stem(prefix, user') + ":" + "version";
      LastColon(front, ShowInt(page), Stem(prefix, user'), "version");
      assert false;
    }
  }

  /** The keys, spelled out for one user. */
  lemma KeysAreSpelled(user: string)
    ensures VersionedKey("podex:", user, 3, 0) == "podex:sessions:user:" + user + ":v3:page:0"
    ensures VersionKey("podex:", user) == "podex:sessions:user:" + user + ":version"
  {
    assert ShowInt(3) == "3" && ShowInt(0) == "0";
    assert "podex:" + "sessions:user:" == "podex:sessions:user:";
    assert ":v" + "3" + ":page:" + "0" == ":v3:page:0";
  }
}
