/** `clean_logs`: the batch's log directory loses every log file whose
    name stamps it more than a week before the current UTC time. Entries
    that are directories, names that are not a stamp followed by `.log`,
    and logs of the last seven days stay. */
module LogRetention {
  import opened Results
  import opened LogStamps

  /** Whether `clean_logs` removes the entry `name` at time `now`: it is
      not a directory, `strptime` reads a stamp from its name, and that
      stamp is more than a week old. A name `strptime` refuses raises, and
      the `except` clause keeps the file. */
  predicate Deleted(name: string, isDirectory: bool, now: DateTime)
    requires ValidDateTime(now)
  {
    && !isDirectory
    && match ParseLogName(name)
       case None => false
       case Some(st) => Expired(st, now)
  }

  /** The entries left once every entry in `names` has been examined. */
  function RemainingAfter(entries: map<string, bool>, names: set<string>, now: DateTime): (left: map<string, bool>)
    requires ValidDateTime(now)
  {
    map n | n in entries && !(n in names && Deleted(n, entries[n], now)) :: entries[n]
  }

  /** Examining one more entry removes it if it is deleted, and nothing
      else. */
  lemma RemainingAfterOneMore(entries: map<string, bool>, names: set<string>, name: string, now: DateTime)
    requires ValidDateTime(now) && name in entries && name !in names
    ensures RemainingAfter(entries, names + {name}, now)
         == if Deleted(name, entries[name], now) then RemainingAfter(entries, names, now) - {name}
            else RemainingAfter(entries, names, now)
  {
  }

  /** The directory after the whole cleanup: every entry examined. */
  function Retained(entries: map<string, bool>, now: DateTime): map<string, bool>
    requires ValidDateTime(now)
  {
    RemainingAfter(entries, entries.Keys, now)
  }

  /** The main log directory, as `os.listdir` and `os.path.isdir` see it:
      each entry's name and whether it is a directory. */
  class LogDirectory {
    var entries: map<string, bool>

    constructor(entries: map<string, bool>)
      ensures this.entries == entries
    {
      this.entries := entries;
    }

    /** The names that are not directories, which the loop examines. */
    function Files(): set<string>
      reads this
    {
      set n | n in entries && !entries[n]
    }

    /** `clean_logs(main_log_directory)` at UTC time `now`: examines the
        files one by one and removes each expired log. */
    method CleanLogs(now: DateTime)
      requires ValidDateTime(now)
      modifies this
      ensures entries == Retained(old(entries), now)
    {
      var pending := Files();
      ghost var initial := entries;
      ghost var files := pending;
      while pending != {}
        invariant pending <= files
        invariant forall n :: n in files <==> n in initial && !initial[n]
        invariant entries == RemainingAfter(initial, initial.Keys - pending, now)
        decreases pending
      {
        var name :| name in pending;
        RemainingAfterOneMore(initial, initial.Keys - pending, name, now);
        var stamp := ParseLogName(name);
        if stamp.Some? && Expired(stamp.value, now) {
          entries := entries - {name};
        }
        assert initial.Keys - (pending - {name}) == (initial.Keys - pending) + {name};
        pending := pending - {name};
      }
      assert initial.Keys - pending == initial.Keys;
    }
  }

  /** What the cleanup keeps: exactly the entries it does not delete, each
      unchanged; so directories and names without a stamp always stay. */
  lemma RetainedEntries(entries: map<string, bool>, now: DateTime)
    requires ValidDateTime(now)
    ensures forall n :: n in Retained(entries, now) <==> n in entries && !Deleted(n, entries[n], now)
    ensures forall n :: n in Retained(entries, now) ==> Retained(entries, now)[n] == entries[n]
    ensures forall n :: n in entries && (entries[n] || ParseLogName(n).None?) ==> n in Retained(entries, now)
  {
  }

  /** Cleaning twice at the same time removes nothing more. */
  lemma CleanupIdempotent(entries: map<string, bool>, now: DateTime)
    requires ValidDateTime(now)
    ensures Retained(Retained(entries, now), now) == Retained(entries, now)
  {
    var once := Retained(entries, now);
    RetainedEntries(entries, now);
    RetainedEntries(once, now);
  }

  /** A later cleanup keeps no entry that an earlier one removed. */
  lemma LaterCleanupRemovesMore(entries: map<string, bool>, now: DateTime, later: DateTime)
    requires ValidDateTime(now) && ValidDateTime(later)
    requires Microseconds(now) <= Microseconds(later)
    ensures Retained(entries, later).Keys <= Retained(entries, now).Keys
  {
    RetainedEntries(entries, now);
    RetainedEntries(entries, later);
  }

  /** A name in the format `clean_logs` expects, as `strftime` writes it
      for stamp `st`, is removed exactly when `st` is more than a week
      before `now`. */
  lemma LogNameDeletedWhenExpired(st: Stamp, now: DateTime)
    requires ValidStamp(st) && 1969 <= st.year <= 2068 && ValidDateTime(now)
    ensures Deleted(LogName(st), false, now) <==> Expired(st, now)
  {
    ParseLogNameRoundTrip(st);
  }

  /** Removal follows the calendar: when the log named for one stamp is
      removed, so is the log named for every earlier stamp. */
  lemma EarlierLogsDeletedFirst(a: Stamp, b: Stamp, now: DateTime)
    requires ValidStamp(a) && 1969 <= a.year <= 2068
    requires ValidStamp(b) && 1969 <= b.year <= 2068
    requires ValidDateTime(now) && StrictlyBefore(a, b)
    requires Deleted(LogName(b), false, now)
    ensures Deleted(LogName(a), false, now)
  {
    LogNameDeletedWhenExpired(a, now);
    LogNameDeletedWhenExpired(b, now);
    ExpiredEarlier(a, b, now);
  }
}
