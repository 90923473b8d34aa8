/** The keys of the SSH connection pool of internal/executor/ssh_pool.go, and which of them a removal by host meets. */
module SSHKeys {
  import opened Text

  type Key = string

  function Digits(n: nat): string {
    if n < 10 then [('0' as int + n) as char] else Digits(n / 10) + [('0' as int + n % 10) as char]
  }

  function Decimal(n: int): string {
    if n < 0 then "-" + Digits(-n) else Digits(n)
  }

  function ConnKey(host: string, port: int, user: string, keyPath: string, socksProxy: string, proxyCommand: string): Key {
    user + ("@" + host + ":" + Decimal(port) + "|") + ("key=" + keyPath + "|socks=" + socksProxy + "|proxy=" + proxyCommand)
  }

  function Marker(host: string, port: int): string {
    "@" + host + ":" + Decimal(port) + "|"
  }

  predicate OccursAt(s: string, part: string, i: int) {
    0 <= i <= |s| - |part| && s[i..i + |part|] == part
  }

  predicate Contains(s: string, part: string) {
    exists i :: 0 <= i <= |s| && OccursAt(s, part, i)
  }

  lemma ContainsMiddle(a: string, b: string, c: string)
    ensures Contains(a + b + c, b)
  {
    assert OccursAt(a + b + c, b, |a|);
  }

  // Every key for a host and port contains their marker, whatever the user, key path and proxies.
  lemma KeyContainsMarker(host: string, port: int, user: string, keyPath: string, socksProxy: string, proxyCommand: string)
    ensures Contains(ConnKey(host, port, user, keyPath, socksProxy, proxyCommand), Marker(host, port))
  {
    ContainsMiddle(user, Marker(host, port), "key=" + keyPath + "|socks=" + socksProxy + "|proxy=" + proxyCommand);
  }

  // ----- Which keys a removal by host meets -----

  // The key path and proxies as they stand in a key.
  function Settings(keyPath: string, socksProxy: string, proxyCommand: string): string {
    "key=" + keyPath + "|socks=" + socksProxy + "|proxy=" + proxyCommand
  }

  lemma {:induction false} DigitsAreDigits(n: nat)
    ensures Digits(n) != "" && forall i :: 0 <= i < |Digits(n)| ==> '0' <= Digits(n)[i] <= '9'
  {
    if n >= 10 {
      DigitsAreDigits(n / 10);
    }
  }

  lemma {:induction false} DigitsDiffer(n: nat, m: nat)
    requires Digits(n) == Digits(m)
    ensures n == m
  {
    DigitsAreDigits(n / 10);
    DigitsAreDigits(m / 10);
    var d := Digits(n);
    assert n >= 10 ==> d == Digits(n / 10) + [d[|d| - 1]];
    assert m >= 10 ==> d == Digits(m / 10) + [d[|d| - 1]];
    assert d[|d| - 1] == ('0' as int + n % 10) as char == ('0' as int + m % 10) as char;
    if n >= 10 && m >= 10 {
      assert d[..|d| - 1] == Digits(n / 10) == Digits(m / 10);
      DigitsDiffer(n / 10, m / 10);
    }
  }

  lemma SignShows(n: int)
    ensures Decimal(n) != "" && (Decimal(n)[0] == '-' <==> n < 0)
  {
    DigitsAreDigits(if n < 0 then -n else n);
  }

  lemma DecimalsDiffer(n: int, m: int)
    requires Decimal(n) == Decimal(m)
    ensures n == m
  {
    SignShows(n);
    SignShows(m);
    if n < 0 && m < 0 {
      assert Decimal(n)[1..] == Digits(-n) && Decimal(m)[1..] == Digits(-m);
      DigitsDiffer(-n, -m);
    } else if n >= 0 && m >= 0 {
      DigitsDiffer(n, m);
    }
  }

  lemma DecimalIsPlain(n: int)
    ensures Without(Decimal(n), ':') && Without(Decimal(n), '@') && Without(Decimal(n), '|')
  {
    DigitsAreDigits(if n < 0 then -n else n);
  }

  // Two texts with one colon before a part that has none split alike.
  lemma LastColon(a: string, d: string, b: string, e: string)
    requires a + ":" + d == b + ":" + e && Without(d, ':') && Without(e, ':')
    ensures a == b && d == e
  {
    var s := a + ":" + d;
    assert s[|a|] == ':' && s[|b|] == ':';
    assert forall i :: |a| < i < |s| ==> s[i] == d[i - |a| - 1];
    assert forall i :: |b| < i < |s| ==> s[i] == e[i - |b| - 1];
    assert |a| == |b|;
    assert s[..|a|] == a && (b + ":" + e)[..|b|] == b;
    assert s[|a| + 1..] == d && (b + ":" + e)[|b| + 1..] == e;
  }

  // Texts that end at their only bar and start alike are alike.
  lemma UpToTheBar(m: string, m2: string, rest: string)
    requires m != "" && m[|m| - 1] == '|' && forall i :: 0 <= i < |m| - 1 ==> m[i] != '|'
    requires m2 != "" && m2[|m2| - 1] == '|' && forall i :: 0 <= i < |m2| - 1 ==> m2[i] != '|'
    requires OccursAt(m2 + rest, m, 0)
    ensures m == m2
  {
    var s := m2 + rest;
    assert m == s[..|m|];
    assert forall i :: 0 <= i < |m| ==> s[i] == m[i];
    assert forall i :: 0 <= i < |m2| ==> s[i] == m2[i];
    assert s[|m| - 1] == '|' && s[|m2| - 1] == '|';
    assert |m| == |m2|;
  }

  // A marker stands in front of some text only if it is that text's own marker.
  lemma MarkerInFront(host: string, port: int, host2: string, port2: int, rest: string)
    requires Without(host, '|') && Without(host2, '|')
    requires OccursAt(Marker(host2, port2) + rest, Marker(host, port), 0)
    ensures host == host2 && port == port2
  {
    var m, m2 := Marker(host, port), Marker(host2, port2);
    DecimalIsPlain(port);
    DecimalIsPlain(port2);
    UpToTheBar(m, m2, rest);
    assert m == "@" + (host + ":" + Decimal(port)) + "|" && m2 == "@" + (host2 + ":" + Decimal(port2)) + "|";
    assert m[1..|m| - 1] == host + ":" + Decimal(port) && m2[1..|m2| - 1] == host2 + ":" + Decimal(port2);
    LastColon(host, Decimal(port), host2, Decimal(port2));
    DecimalsDiffer(port, port2);
  }

  // A removal by host meets an entry exactly when it is for that host and port, or its key path or proxies happen to
  // contain the marker. Host names hold no at sign or bar, and user names no at sign.
  lemma RemovalMeetsIff(host: string, port: int, host2: string, port2: int, user: string, keyPath: string, socksProxy: string, proxyCommand: string)
    requires Without(host, '|') && Without(host2, '|') && Without(host2, '@') && Without(user, '@')
    ensures Contains(ConnKey(host2, port2, user, keyPath, socksProxy, proxyCommand), Marker(host, port)) <==>
            (host, port) == (host2, port2) || Contains(Settings(keyPath, socksProxy, proxyCommand), Marker(host, port))
  {
    var settings, own, marker := Settings(keyPath, socksProxy, proxyCommand), Marker(host2, port2), Marker(host, port);
    var key := user + own + settings;
    assert key == ConnKey(host2, port2, user, keyPath, socksProxy, proxyCommand);
    if (host, port) == (host2, port2) {
      KeyContainsMarker(host, port, user, keyPath, socksProxy, proxyCommand);
    } else if Contains(settings, marker) {
      var i :| 0 <= i <= |settings| && OccursAt(settings, marker, i);
      Behind(user + own, settings, marker, i);
    } else if i :| 0 <= i <= |key| && OccursAt(key, marker, i) {
      WhereMarkerStands(host, port, host2, port2, user, settings, i);
    }
  }

  lemma Behind(front: string, s: string, part: string, i: nat)
    requires i <= |s|
    ensures OccursAt(front + s, part, |front| + i) <==> OccursAt(s, part, i)
  {
    if i <= |s| - |part| {
      assert (front + s)[|front| + i..|front| + i + |part|] == s[i..i + |part|];
    }
  }

  lemma WhereMarkerStands(host: string, port: int, host2: string, port2: int, user: string, settings: string, i: nat)
    requires Without(host, '|') && Without(host2, '|') && Without(host2, '@') && Without(user, '@')
    requires OccursAt(user + Marker(host2, port2) + settings, Marker(host, port), i)
    ensures (host, port) == (host2, port2) || Contains(settings, Marker(host, port))
  {
    DecimalIsPlain(port2);
    StandsAtSign(user, Marker(host2, port2), settings, Marker(host, port), i);
    if i == |user| {
      MarkerInFront(host, port, host2, port2, settings);
    }
  }

  // Something that starts with an at sign stands where the only one is, or behind.
  lemma StandsAtSign(user: string, own: string, settings: string, marker: string, i: nat)
    requires Without(user, '@') && own != "" && forall j :: 1 <= j < |own| ==> own[j] != '@'
    requires marker != "" && marker[0] == '@' && OccursAt(user + own + settings, marker, i)
    ensures if i == |user| then OccursAt(own + settings, marker, 0) else Contains(settings, marker)
  {
    var key := user + own + settings;
    assert key[i] == key[i..i + |marker|][0] == '@';
    assert forall j :: 0 <= j < |user| ==> key[j] == user[j];
    assert forall j :: |user| < j < |user| + |own| ==> key[j] == own[j - |user|];
    if i == |user| {
      assert key == user + (own + settings);
      Behind(user, own + settings, marker, 0);
    } else {
      assert i >= |user + own|;
      Behind(user + own, settings, marker, i - |user + own|);
    }
  }

  // A proxy command may name another entry's host with a user: removing that host removes this entry, too.
  lemma ProxyIsMetToo(user: string, keyPath: string)
    ensures Contains(ConnKey("b", 22, user, keyPath, "", "nc -x p@a:22|"), Marker("a", 22))
  {
    var head := user + ("@" + "b" + ":" + Decimal(22) + "|") + ("key=" + keyPath + "|socks=" + "" + "|proxy=" + "nc -x p");
    assert Decimal(22) == "22" by {
      assert Digits(2) == "2" && Digits(22) == Digits(2) + "2";
    }
    assert ConnKey("b", 22, user, keyPath, "", "nc -x p@a:22|") == head + Marker("a", 22) + "" by {
      assert "nc -x p@a:22|" == "nc -x p" + "@a:22|" && Marker("a", 22) == "@a:22|";
    }
    ContainsMiddle(head, Marker("a", 22), "");
  }
}
