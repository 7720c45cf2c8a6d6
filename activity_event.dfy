/** ActivityEvent: one captured or aggregated activity record, as the strategies see it. */
module ActivityEvents {
  import opened Wrappers
  import opened JavaTime

  /** A java.util.UUID, as its 128-bit value. */
  type Uuid = n: nat | n < 0x1_0000_0000_0000_0000_0000_0000_0000_0000

  datatype ActivityType = Keyboard | Mouse | SystemEvent

  /** A metadata entry: Some(n) when the stored object is a java.lang.Number (read as the
      whole number n), None when it is anything else (a String, a Boolean, null). */
  type MetaValue = Option<int>

  /** The metadata map; an absent key behaves like a non-numeric value. */
  type Metadata = map<string, MetaValue>

  /** The fields of ActivityEvent. `id` and `userId` may be null in Java and `metadata`
      may be a null map; `timestamp` and `kind` are checked non-null at construction. */
  datatype ActivityEvent = ActivityEvent(
    id: Option<Uuid>,
    userId: Option<Uuid>,
    timestamp: Instant,
    kind: ActivityType,
    intensity: real,
    metadata: Option<Metadata>)

  /** ActivityEvent.equals: Objects.equals on the ids and nothing else. */
  predicate SameEvent(a: ActivityEvent, b: ActivityEvent) {
    a.id == b.id
  }

  /** Two events with the same id are equal whatever else differs, and two events with
      different ids are different even when every other field agrees. */
  lemma SameEventOnlyById(a: ActivityEvent, b: ActivityEvent)
    ensures SameEvent(a, b) ==> SameEvent(a, b.(timestamp := a.timestamp, kind := a.kind,
                                                intensity := a.intensity, metadata := a.metadata))
    ensures a.id != b.id ==> !SameEvent(a, a.(id := b.id))
  {
  }
}
