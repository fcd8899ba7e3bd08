/** The MongoDB driver as the repository sees it: a database handing out collections,
    each of which records the commands it receives and answers each with an opaque
    reply, and the lazy cursor that `find` returns. */
module Store {
  import opened Js

  /** A document as the store returns it (`WithId<T>`): `_id` is set, not null, and
      `_id.toString()` does not throw. */
  predicate HasId(doc: Fields)
  {
    Get(doc, "_id").Some? && IdValueOk(Get(doc, "_id").value)
  }

  /** `toString()` on an `_id`: `null` has no such method, and otherwise it is `String()`. */
  predicate IdValueOk(v: Value)
  {
    !v.Null? && JsString(v).Some?
  }

  type StoredDoc = doc: Fields | HasId(doc) witness [("_id", Str([]))]

  /** An `_id` value the store hands back for an inserted document. */
  type IdValue = v: Value | IdValueOk(v) witness Str([])

  /** A command sent to a collection. */
  datatype Command =
    | Aggregate(pipeline: seq<Value>)
    | Find(filter: Fields, options: Fields, sort: Option<Fields>, skip: Option<int>, limit: Option<int>)
    | FindOne(filter: Fields)
    | CountDocuments(filter: Fields)
    | InsertOne(doc: Fields)
    | UpdateOne(filter: Fields, update: Fields)
    | FindOneAndUpdate(filter: Fields, update: Fields, upsert: bool, returnAfter: bool)
    | DeleteOne(filter: Fields)

  /** The store's answer: the documents read, the single document read or updated
      (`null` as `None`), a count, the inserted id, and the modified and deleted counts. */
  datatype Reply = Reply(
    docs: seq<StoredDoc>,
    doc: Option<StoredDoc>,
    count: nat,
    insertedId: IdValue,
    modifiedCount: nat,
    deletedCount: nat)

  /** How the store answers: by collection name, by the number of commands that
      collection received before, and by the command. */
  type Server = (string, nat, Command) -> Reply

  /** `Db`. */
  class Db {
    const server: Server

    constructor(server: Server)
      ensures this.server == server
    {
      this.server := server;
    }

    /** `db.collection(name)`: a handle that has sent nothing yet. */
    method Collection(name: string) returns (c: Collection)
      ensures fresh(c) && c.name == name && c.server == server && c.log == []
    {
      c := new Collection(name, server);
    }
  }

  /** `Collection`: every command sent is appended to `log`. */
  class Collection {
    const name: string
    const server: Server
    var log: seq<Command>

    constructor(name: string, server: Server)
      ensures this.name == name && this.server == server && log == []
    {
      this.name := name;
      this.server := server;
      log := [];
    }

    /** The reply to the `n`-th command, counted from 0. */
    function Answer(n: nat, cmd: Command): Reply
    {
      server(name, n, cmd)
    }

    /** Sends one command and waits for its reply. */
    method Send(cmd: Command) returns (reply: Reply)
      modifies this
      ensures log == old(log) + [cmd]
      ensures reply == Answer(|old(log)|, cmd)
    {
      reply := Answer(|log|, cmd);
      log := log + [cmd];
    }

    /** `collection.find(filter, options)`: a cursor; nothing is sent yet. */
    method Find(filter: Fields, options: Fields) returns (cursor: FindCursor)
      ensures fresh(cursor)
      ensures cursor.collection == this && cursor.filter == filter && cursor.options == options
      ensures cursor.sort == None && cursor.skip == None && cursor.limit == None
    {
      cursor := new FindCursor(this, filter, options);
    }
  }

  /** `FindCursor`: `sort`, `skip` and `limit` set options on the cursor itself and
      return it; `toArray` sends the read. */
  class FindCursor {
    const collection: Collection
    const filter: Fields
    const options: Fields
    var sort: Option<Fields>
    var skip: Option<int>
    var limit: Option<int>

    constructor(collection: Collection, filter: Fields, options: Fields)
      ensures this.collection == collection && this.filter == filter && this.options == options
      ensures sort == None && skip == None && limit == None
    {
      this.collection := collection;
      this.filter := filter;
      this.options := options;
      sort := None;
      skip := None;
      limit := None;
    }

    /** The read this cursor stands for. */
    function Read(): Command
      reads this
    {
      Find(filter, options, sort, skip, limit)
    }

    method Sort(s: Fields)
      modifies this
      ensures sort == Some(s) && skip == old(skip) && limit == old(limit)
    {
      sort := Some(s);
    }

    method Skip(n: int)
      modifies this
      ensures skip == Some(n) && sort == old(sort) && limit == old(limit)
    {
      skip := Some(n);
    }

    method Limit(n: int)
      modifies this
      ensures limit == Some(n) && sort == old(sort) && skip == old(skip)
    {
      limit := Some(n);
    }

    /** `cursor.toArray()`. */
    method ToArray() returns (docs: seq<StoredDoc>)
      modifies collection
      ensures collection.log == old(collection.log) + [Read()]
      ensures docs == collection.Answer(|old(collection.log)|, Read()).docs
    {
      var reply := collection.Send(Read());
      docs := reply.docs;
    }
  }
}
