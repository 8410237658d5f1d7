/** The per-peer record of an authenticated connection, and its blittable
    (object array) serialiser. */
module ClientRecord {

  /** An element of a C# object[]: null, or a boxed int. */
  datatype Boxed = Null | BoxedInt(i: int)

  class Client {
    /** Unique network id of this client. */
    var networkID: int

    constructor (id: int)
      ensures networkID == id
    {
      networkID := id;
    }

    function GetNetworkID(): (id: int)
      reads this
      ensures id == networkID
    {
      networkID
    }

    /** A fresh two-element array: slot 0 left null, slot 1 the boxed id. */
    method ToBlittable() returns (objects: array<Boxed>)
      ensures fresh(objects) && objects.Length == 2
      ensures objects[0] == Null && objects[1] == BoxedInt(networkID)
    {
      objects := new Boxed[2](_ => Null);
      objects[1] := BoxedInt(networkID);
    }

    /** As written: a fresh client with the receiver's own id; `data` is never read. */
    method FromBlittable(data: array<Boxed>) returns (c: Client)
      ensures fresh(c) && c.networkID == networkID
    {
      c := new Client(networkID);
    }

    /** Reading the id back from slot 1, as the serialiser's layout calls for;
        null when the array is too short or slot 1 holds no int. */
    method FromBlittableDecoded(data: array<Boxed>) returns (c: Client?)
      ensures (data.Length >= 2 && data[1].BoxedInt?) <==> c != null
      ensures c != null ==> fresh(c) && c.networkID == data[1].i
    {
      if data.Length >= 2 && data[1].BoxedInt? {
        c := new Client(data[1].i);
      } else {
        c := null;
      }
    }
  }

  /** Serialising a client and deserialising on the same client gives its id
      back, and neither step changes the client. */
  method BlittableRoundTrip(client: Client) returns (id: int)
    ensures id == client.networkID
  {
    var data := client.ToBlittable();
    var copy := client.FromBlittable(data);
    id := copy.GetNetworkID();
  }

  /** Deserialising client 1's array on client 2 yields id 2, not 1: the data
      is ignored. */
  method FromBlittableIgnoresData() returns (sent: int, received: int)
    ensures sent == 1 && received == 2
  {
    var sender := new Client(1);
    var receiver := new Client(2);
    var data := sender.ToBlittable();
    sent := data[1].i;
    var copy := receiver.FromBlittable(data);
    received := copy.GetNetworkID();
  }

  /** With the id read from slot 1, any receiver recovers the sender's id. */
  method DecodedRoundTrip(sender: Client, receiver: Client) returns (id: int)
    ensures id == sender.networkID
  {
    var data := sender.ToBlittable();
    var copy := receiver.FromBlittableDecoded(data);
    id := copy.GetNetworkID();
  }
}
